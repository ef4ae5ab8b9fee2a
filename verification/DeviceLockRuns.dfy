/** What every run of the device lock keeps, for any actors and any order of commands. */
module DeviceLockRuns {
  import opened Common
  import opened DeviceLock

  type Hash = string -> string

  function Run(hash: Hash, t: Tables, cmds: seq<Cmd>): Tables {
    if cmds == [] then t else Step(hash, Run(hash, t, Init(cmds)), Last(cmds)).0
  }

  function ReplyAt(hash: Hash, t: Tables, cmds: seq<Cmd>, i: nat): Reply
    requires i < |cmds|
  {
    Step(hash, Run(hash, t, cmds[..i]), cmds[i]).1
  }

  lemma {:induction false} RunConcat(hash: Hash, t: Tables, a: seq<Cmd>, b: seq<Cmd>)
    ensures Run(hash, t, a + b) == Run(hash, Run(hash, t, a), b)
  {
    if b == [] {
      assert a + b == a;
    } else {
      assert Init(a + b) == a + Init(b);
      RunConcat(hash, t, a, Init(b));
    }
  }

  lemma RunOneMore(hash: Hash, t: Tables, cmds: seq<Cmd>, i: nat)
    requires i < |cmds|
    ensures Run(hash, t, cmds[..i + 1]) == Step(hash, Run(hash, t, cmds[..i]), cmds[i]).0
  {
    assert Init(cmds[..i + 1]) == cmds[..i];
  }

  // ----- the audit log as an independent account of the locks -----

  /** A lock row without the token hash, which never reaches the audit table. */
  datatype PublicRow = PublicRow(holder: string, purpose: string, task: Option<string>, fencing: int,
                                 acquiredAt: Stamp, renewedAt: Stamp, expiresAt: Stamp)

  function Public(row: LockRow): PublicRow {
    PublicRow(row.holder, row.purpose, row.task, row.fencing, row.acquiredAt, row.renewedAt, row.expiresAt)
  }

  function PublicLocks(locks: map<Serial, LockRow>): map<Serial, PublicRow> {
    map s | s in locks :: Public(locks[s])
  }

  /** What one more audit row does to a replay. */
  function Redo(before: map<Serial, PublicRow>, row: AuditRow): map<Serial, PublicRow> {
    match row.event
    case Acquired(purpose, task, until) =>
      before[row.serial := PublicRow(row.actor, purpose, task, row.fencing, row.at, row.at, until)]
    case AcquireRejected(_, _) => before
    case Renewed(until, _) =>
      if row.serial in before then before[row.serial := before[row.serial].(renewedAt := row.at, expiresAt := until)]
      else before
    case Released(_) => before - {row.serial}
    case Broken(_, _, _, _) => before - {row.serial}
  }

  /** Rebuilds the locks table from audit rows alone. */
  function Replay(audit: seq<AuditRow>): map<Serial, PublicRow> {
    if audit == [] then map[] else Redo(Replay(Init(audit)), Last(audit))
  }

  function WithoutRejections(audit: seq<AuditRow>): seq<AuditRow> {
    if audit == [] then []
    else WithoutRejections(Init(audit)) + (if Last(audit).event.AcquireRejected? then [] else [Last(audit)])
  }

  /** Fencing tokens handed out for one serial, in order. */
  function Tokens(audit: seq<AuditRow>, serial: Serial): seq<int> {
    if audit == [] then []
    else Tokens(Init(audit), serial) +
         (if Last(audit).serial == serial && Last(audit).event.Acquired? then [Last(audit).fencing] else [])
  }

  function UpTo(n: nat): seq<int> {
    seq(n, i => i + 1)
  }

  ghost predicate TokensInOrder(t: Tables, serial: Serial) {
    Counter(t, serial) >= 1 && Tokens(t.audit, serial) == UpTo(Counter(t, serial) - 1)
  }

  ghost predicate LiveRowsHoldLatestToken(t: Tables) {
    forall s :: s in t.locks ==> s in t.counters && 1 <= t.locks[s].fencing == t.counters[s] - 1
  }

  /** Holds of the empty store and is kept by every command. */
  ghost predicate Invariant(t: Tables) {
    && LiveRowsHoldLatestToken(t)
    && (forall s :: TokensInOrder(t, s))
    && Replay(t.audit) == PublicLocks(t.locks)
  }

  lemma StepAppends(hash: Hash, t: Tables, c: Cmd)
    ensures var t' := Step(hash, t, c).0;
            t'.audit == t.audit || (|t'.audit| == |t.audit| + 1 && Init(t'.audit) == t.audit
                                    && Last(t'.audit).serial == c.serial)
  {
  }

  lemma StepAuditsGrant(hash: Hash, t: Tables, c: Cmd, serial: Serial)
    ensures var (t', reply) := Step(hash, t, c);
            Tokens(t'.audit, serial) == Tokens(t.audit, serial)
              + (if c.serial == serial && reply.Granted? then [reply.grantedFencing] else [])
  {
    StepAppends(hash, t, c);
  }

  lemma StepCounter(hash: Hash, t: Tables, c: Cmd, s: Serial)
    ensures var (t', reply) := Step(hash, t, c);
            && Counter(t', s) == Counter(t, s) + (if c.serial == s && reply.Granted? then 1 else 0)
            && (reply.Granted? ==> reply.grantedFencing == Counter(t, c.serial))
  {
  }

  lemma StepKeepsTokens(hash: Hash, t: Tables, c: Cmd, s: Serial)
    requires TokensInOrder(t, s)
    ensures TokensInOrder(Step(hash, t, c).0, s)
  {
    hide Step, Tokens, Counter;
    StepAuditsGrant(hash, t, c, s);
    StepCounter(hash, t, c, s);
    var n := Counter(t, s);
    assert UpTo(n) == UpTo(n - 1) + [n];
  }

  lemma ReplayAppend(audit: seq<AuditRow>, row: AuditRow)
    ensures Replay(audit + [row]) == Redo(Replay(audit), row)
  {
    assert Init(audit + [row]) == audit;
  }

  lemma StepKeepsReplay(hash: Hash, t: Tables, c: Cmd)
    requires Replay(t.audit) == PublicLocks(t.locks)
    ensures var t' := Step(hash, t, c).0; Replay(t'.audit) == PublicLocks(t'.locks)
  {
    hide Replay, Redo, PublicLocks;
    match c
    case Acquire(_, _, _, _, _, _, _) => AcquireKeepsReplay(hash, t, c);
    case Renew(_, _, _, _, _) => RenewKeepsReplay(hash, t, c);
    case Release(_, _, _, _) => EndKeepsReplay(hash, t, c);
    case BreakStale(_, _, _, _, _) => EndKeepsReplay(hash, t, c);
  }

  lemma AcquireKeepsReplay(hash: Hash, t: Tables, c: Cmd)
    requires Replay(t.audit) == PublicLocks(t.locks) && c.Acquire?
    ensures var t' := AcquireStep(hash, t, c).0; Replay(t'.audit) == PublicLocks(t'.locks)
  {
    hide Replay, Strip, ValidIdentity, ValidSerial, Counter;
    var t' := AcquireStep(hash, t, c).0;
    if t' != t { ReplayAppend(t.audit, Last(t'.audit)); }
  }

  lemma RenewKeepsReplay(hash: Hash, t: Tables, c: Cmd)
    requires Replay(t.audit) == PublicLocks(t.locks) && c.Renew?
    ensures var t' := RenewStep(hash, t, c).0; Replay(t'.audit) == PublicLocks(t'.locks)
  {
    hide Replay, ValidSerial;
    var t' := RenewStep(hash, t, c).0;
    if t'.audit != t.audit { ReplayAppend(t.audit, Last(t'.audit)); }
  }

  lemma EndKeepsReplay(hash: Hash, t: Tables, c: Cmd)
    requires Replay(t.audit) == PublicLocks(t.locks) && (c.Release? || c.BreakStale?)
    ensures var t' := Step(hash, t, c).0; Replay(t'.audit) == PublicLocks(t'.locks)
  {
    hide Replay, Strip, ValidIdentity, ValidSerial;
    var t' := Step(hash, t, c).0;
    if t'.audit != t.audit { ReplayAppend(t.audit, Last(t'.audit)); }
  }

  lemma StepKeepsLatestToken(hash: Hash, t: Tables, c: Cmd)
    requires LiveRowsHoldLatestToken(t) && Counter(t, c.serial) >= 1
    ensures LiveRowsHoldLatestToken(Step(hash, t, c).0)
  {
  }

  lemma StepKeepsInvariant(hash: Hash, t: Tables, c: Cmd)
    requires Invariant(t)
    ensures Invariant(Step(hash, t, c).0)
  {
    StepKeepsReplay(hash, t, c);
    forall s ensures TokensInOrder(Step(hash, t, c).0, s) {
      StepKeepsTokens(hash, t, c, s);
    }
    assert TokensInOrder(t, c.serial);
    StepKeepsLatestToken(hash, t, c);
  }

  lemma {:induction false} RunKeepsInvariant(hash: Hash, t: Tables, cmds: seq<Cmd>)
    requires Invariant(t)
    ensures Invariant(Run(hash, t, cmds))
  {
    if cmds != [] {
      RunKeepsInvariant(hash, t, Init(cmds));
      StepKeepsInvariant(hash, Run(hash, t, Init(cmds)), Last(cmds));
    }
  }

  lemma EmptyInvariant()
    ensures Invariant(EMPTY)
  {
    assert PublicLocks(EMPTY.locks) == map[];
    assert forall s :: Tokens(EMPTY.audit, s) == UpTo(0);
  }

  // ----- replay -----

  /** The audit rows of any run rebuild the locks table, token hashes aside. */
  lemma AuditRebuildsLocks(hash: Hash, cmds: seq<Cmd>)
    ensures var t := Run(hash, EMPTY, cmds); Replay(t.audit) == PublicLocks(t.locks)
  {
    EmptyInvariant();
    RunKeepsInvariant(hash, EMPTY, cmds);
  }

  /** Rejected acquires are recorded but carry no weight in the replay of any log. */
  lemma {:induction false} RejectionsAreInert(audit: seq<AuditRow>)
    ensures Replay(WithoutRejections(audit)) == Replay(audit)
  {
    if audit != [] {
      RejectionsAreInert(Init(audit));
      var kept := WithoutRejections(Init(audit));
      if Last(audit).event.AcquireRejected? {
        assert WithoutRejections(audit) == kept;
      } else {
        assert Init(kept + [Last(audit)]) == kept;
        assert Last(kept + [Last(audit)]) == Last(audit);
      }
    }
  }

  /**
   * A refused command changes no lock and no counter, and it writes an audit row exactly when it is a
   * well-formed acquire of a taken serial.
   */
  lemma RefusalLeavesOnlyARejection(hash: Hash, t: Tables, c: Cmd)
    requires Step(hash, t, c).1.Refused?
    ensures var t' := Step(hash, t, c).0;
            && t'.locks == t.locks && t'.counters == t.counters
            && (t'.audit != t.audit <==> c.Acquire? && c.WellFormed() && c.serial in t.locks)
            && (t'.audit != t.audit ==> |t'.audit| == |t.audit| + 1 && Last(t'.audit).event.AcquireRejected?)
  {
    StepAppends(hash, t, c);
  }

  // ----- fencing -----

  /** The tokens that acquires of `serial` were answered with over a run. */
  function GrantedTokens(hash: Hash, t: Tables, cmds: seq<Cmd>, serial: Serial): seq<int> {
    if cmds == [] then []
    else
      var reply := Step(hash, Run(hash, t, Init(cmds)), Last(cmds)).1;
      GrantedTokens(hash, t, Init(cmds), serial) +
      (if Last(cmds).serial == serial && reply.Granted? then [reply.grantedFencing] else [])
  }

  lemma {:induction false} GrantsAreAudited(hash: Hash, cmds: seq<Cmd>, serial: Serial)
    ensures GrantedTokens(hash, EMPTY, cmds, serial) == Tokens(Run(hash, EMPTY, cmds).audit, serial)
  {
    if cmds != [] {
      GrantsAreAudited(hash, Init(cmds), serial);
      StepAuditsGrant(hash, Run(hash, EMPTY, Init(cmds)), Last(cmds), serial);
    }
  }

  /** Successful acquires of a serial receive 1, 2, 3, … over the whole run, through releases and breaks. */
  lemma FencingHasNoGapsOrReuse(hash: Hash, cmds: seq<Cmd>, serial: Serial)
    ensures exists n: nat ::
              && GrantedTokens(hash, EMPTY, cmds, serial) == UpTo(n)
              && Counter(Run(hash, EMPTY, cmds), serial) == n + 1
              && (serial in Run(hash, EMPTY, cmds).locks ==> 1 <= n == Run(hash, EMPTY, cmds).locks[serial].fencing)
  {
    EmptyInvariant();
    RunKeepsInvariant(hash, EMPTY, cmds);
    GrantsAreAudited(hash, cmds, serial);
    var t := Run(hash, EMPTY, cmds);
    assert TokensInOrder(t, serial);
    var n: nat := Counter(t, serial) - 1;
    assert GrantedTokens(hash, EMPTY, cmds, serial) == UpTo(n);
  }

  /** Token f was handed out for this serial and its lock is gone. */
  predicate Dead(t: Tables, serial: Serial, f: int) {
    f < Counter(t, serial) && (serial in t.locks ==> t.locks[serial].fencing != f)
  }

  predicate Presents(c: Cmd, serial: Serial, f: int) {
    !c.Acquire? && c.serial == serial && c.fencing == f
  }

  lemma DeadStep(hash: Hash, t: Tables, c: Cmd, serial: Serial, f: int)
    requires Dead(t, serial, f)
    ensures Dead(Step(hash, t, c).0, serial, f)
    ensures Presents(c, serial, f) ==> Step(hash, t, c).1.Refused?
  {
  }

  lemma {:induction false} DeadRun(hash: Hash, t: Tables, cmds: seq<Cmd>, serial: Serial, f: int)
    requires Dead(t, serial, f)
    ensures Dead(Run(hash, t, cmds), serial, f)
  {
    if cmds != [] {
      DeadRun(hash, t, Init(cmds), serial, f);
      DeadStep(hash, Run(hash, t, Init(cmds)), Last(cmds), serial, f);
    }
  }

  lemma FreedIsDead(hash: Hash, t: Tables, c: Cmd, f: int)
    requires LiveRowsHoldLatestToken(t)
    requires Presents(c, c.serial, f) && Step(hash, t, c).1.Freed?
    ensures Dead(Step(hash, t, c).0, c.serial, f)
  {
  }

  lemma DeadReply(hash: Hash, t: Tables, cmds: seq<Cmd>, j: nat, i: nat, f: int)
    requires i <= j < |cmds|
    requires Dead(Run(hash, t, cmds[..i]), cmds[j].serial, f) && Presents(cmds[j], cmds[j].serial, f)
    ensures ReplyAt(hash, t, cmds, j).Refused?
  {
    var start := Run(hash, t, cmds[..i]);
    assert cmds[..j] == cmds[..i] + cmds[i..j];
    RunConcat(hash, t, cmds[..i], cmds[i..j]);
    DeadRun(hash, start, cmds[i..j], cmds[j].serial, f);
    DeadStep(hash, Run(hash, t, cmds[..j]), cmds[j], cmds[j].serial, f);
  }

  /**
   * Once the lock with token f has been released or broken, no later renew, release or break that
   * presents f succeeds, whatever owner token it shows.
   */
  lemma DeadTokenNeverWorksAgain(hash: Hash, cmds: seq<Cmd>, serial: Serial, f: int, i: nat, j: nat)
    requires i < j < |cmds|
    requires Presents(cmds[i], serial, f) && ReplyAt(hash, EMPTY, cmds, i).Freed?
    requires Presents(cmds[j], serial, f)
    ensures ReplyAt(hash, EMPTY, cmds, j).Refused?
  {
    EmptyInvariant();
    RunKeepsInvariant(hash, EMPTY, cmds[..i]);
    FreedIsDead(hash, Run(hash, EMPTY, cmds[..i]), cmds[i], f);
    RunOneMore(hash, EMPTY, cmds, i);
    DeadReply(hash, EMPTY, cmds, j, i + 1, f);
  }

  // ----- exclusion -----

  /** The command is a well-formed release by the owner, or a break of the lock at or after its expiry. */
  predicate EndsLock(hash: Hash, row: LockRow, c: Cmd) {
    && c.WellFormed() && !c.Acquire? && !c.Renew? && c.fencing == row.fencing
    && (c.Release? ==> hash(c.token) == row.tokenHash)
    && (c.BreakStale? ==> c.now >= ParseIso(row.expiresAt))
  }

  /**
   * A lock ends by a matching token and fencing, or by a break at or after its expiry, and by nothing
   * else; until then its owner, purpose and token stay, and every acquire of the serial is refused.
   */
  lemma LockEndsExactlyBy(hash: Hash, t: Tables, c: Cmd, serial: Serial)
    requires serial in t.locks
    ensures var (t', reply) := Step(hash, t, c); var row := t.locks[serial];
            && (serial !in t'.locks <==> c.serial == serial && EndsLock(hash, row, c))
            && (serial in t'.locks ==>
                  var row' := t'.locks[serial];
                  row == row'.(renewedAt := row.renewedAt, expiresAt := row.expiresAt))
            && (serial in t'.locks && t'.locks[serial] != row ==>
                  c.Renew? && c.serial == serial && c.fencing == row.fencing && hash(c.token) == row.tokenHash
                    && c.now < ParseIso(row.expiresAt))
            && (c.Acquire? && c.serial == serial ==> reply.Refused?)
  {
  }

  predicate Live(t: Tables, serial: Serial, f: int) {
    serial in t.locks && t.locks[serial].fencing == f
  }

  /** A lock that is live at the end of a stretch, and had been issued at its start, was live throughout. */
  lemma LiveThroughout(hash: Hash, cmds: seq<Cmd>, serial: Serial, f: int, i: nat, k: nat, j: nat)
    requires i <= k <= j <= |cmds|
    requires f < Counter(Run(hash, EMPTY, cmds[..i]), serial)
    requires Live(Run(hash, EMPTY, cmds[..j]), serial, f)
    ensures Live(Run(hash, EMPTY, cmds[..k]), serial, f)
  {
    var middle := Run(hash, EMPTY, cmds[..k]);
    CounterGrows(hash, cmds, serial, i, k);
    if !Live(middle, serial, f) {
      assert Dead(middle, serial, f);
      assert cmds[..j] == cmds[..k] + cmds[k..j];
      RunConcat(hash, EMPTY, cmds[..k], cmds[k..j]);
      DeadRun(hash, middle, cmds[k..j], serial, f);
    }
  }

  lemma {:induction false} CounterGrows(hash: Hash, cmds: seq<Cmd>, serial: Serial, i: nat, k: nat)
    requires i <= k <= |cmds|
    ensures Counter(Run(hash, EMPTY, cmds[..i]), serial) <= Counter(Run(hash, EMPTY, cmds[..k]), serial)
  {
    hide Step, Run, Counter;
    if i < k {
      CounterGrows(hash, cmds, serial, i, k - 1);
      RunOneMore(hash, EMPTY, cmds, k - 1);
      StepCounter(hash, Run(hash, EMPTY, cmds[..k - 1]), cmds[k - 1], serial);
    }
  }

  /**
   * If command i acquired `serial` with token f and a later command j released that token, every acquire
   * of the serial between them was refused, even after the lock had gone stale.
   */
  lemma NoAcquireBetween(hash: Hash, cmds: seq<Cmd>, serial: Serial, i: nat, k: nat, j: nat)
    requires i < k < j < |cmds|
    requires cmds[i].Acquire? && cmds[i].serial == serial && ReplyAt(hash, EMPTY, cmds, i).Granted?
    requires var f := ReplyAt(hash, EMPTY, cmds, i).grantedFencing; Presents(cmds[j], serial, f)
    requires !ReplyAt(hash, EMPTY, cmds, j).Refused?
    requires cmds[k].Acquire? && cmds[k].serial == serial
    ensures ReplyAt(hash, EMPTY, cmds, k).Refused?
  {
    var f := ReplyAt(hash, EMPTY, cmds, i).grantedFencing;
    RunOneMore(hash, EMPTY, cmds, i);
    LiveThroughout(hash, cmds, serial, f, i + 1, k, j);
    LockEndsExactlyBy(hash, Run(hash, EMPTY, cmds[..k]), cmds[k], serial);
  }

  /** Unless a release or break of token f succeeds, the lock granted with f stays, through any other commands. */
  lemma {:induction false} LockStaysUntilEnded(hash: Hash, cmds: seq<Cmd>, i: nat, n: nat)
    requires i < n <= |cmds| && cmds[i].Acquire? && ReplyAt(hash, EMPTY, cmds, i).Granted?
    requires forall k :: i < k < n && (cmds[k].Release? || cmds[k].BreakStale?)
               && Presents(cmds[k], cmds[i].serial, ReplyAt(hash, EMPTY, cmds, i).grantedFencing)
               ==> ReplyAt(hash, EMPTY, cmds, k).Refused?
    ensures Live(Run(hash, EMPTY, cmds[..n]), cmds[i].serial, ReplyAt(hash, EMPTY, cmds, i).grantedFencing)
  {
    hide Step, Run, Presents;
    RunOneMore(hash, EMPTY, cmds, n - 1);
    if n == i + 1 {
      GrantIsLive(hash, Run(hash, EMPTY, cmds[..i]), cmds[i]);
    } else {
      LockStaysUntilEnded(hash, cmds, i, n - 1);
      StepKeepsLock(hash, Run(hash, EMPTY, cmds[..n - 1]), cmds[n - 1], cmds[i].serial);
    }
  }

  lemma GrantIsLive(hash: Hash, t: Tables, c: Cmd)
    requires c.Acquire? && Step(hash, t, c).1.Granted?
    ensures Live(Step(hash, t, c).0, c.serial, Step(hash, t, c).1.grantedFencing)
  {
  }

  lemma StepKeepsLock(hash: Hash, t: Tables, c: Cmd, serial: Serial)
    requires serial in t.locks
    requires (c.Release? || c.BreakStale?) && Presents(c, serial, t.locks[serial].fencing) ==>
             Step(hash, t, c).1.Refused?
    ensures Live(Step(hash, t, c).0, serial, t.locks[serial].fencing)
  {
  }

  /** A token is presented with success only after it was handed out. */
  lemma GrantBeforeUse(hash: Hash, cmds: seq<Cmd>, i: nat, j: nat)
    requires i < |cmds| && j < |cmds| && cmds[i].Acquire? && ReplyAt(hash, EMPTY, cmds, i).Granted?
    requires Presents(cmds[j], cmds[i].serial, ReplyAt(hash, EMPTY, cmds, i).grantedFencing)
             && !ReplyAt(hash, EMPTY, cmds, j).Refused?
    ensures i < j
  {
    if j < i {
      EmptyInvariant();
      RunKeepsInvariant(hash, EMPTY, cmds[..j]);
      UsedTokenIsSpent(hash, Run(hash, EMPTY, cmds[..j]), cmds[j]);
      CounterGrows(hash, cmds, cmds[i].serial, j, i);
      StepCounter(hash, Run(hash, EMPTY, cmds[..i]), cmds[i], cmds[i].serial);
    }
  }

  lemma UsedTokenIsSpent(hash: Hash, t: Tables, c: Cmd)
    requires LiveRowsHoldLatestToken(t) && !c.Acquire? && !Step(hash, t, c).1.Refused?
    ensures c.fencing < Counter(t, c.serial)
  {
  }

  // ----- expiry -----

  /** The command is an acquire or renew of `serial` that succeeds. */
  predicate ExtendsLock(hash: Hash, t: Tables, c: Cmd, serial: Serial) {
    c.serial == serial && (c.Acquire? || c.Renew?) && !Step(hash, t, c).1.Refused?
  }

  lemma StepExpiry(hash: Hash, t: Tables, c: Cmd, serial: Serial)
    requires serial in Step(hash, t, c).0.locks
    ensures var row := Step(hash, t, c).0.locks[serial];
            if ExtendsLock(hash, t, c, serial) then row.expiresAt == Iso(c.now + c.ttl * SECOND)
            else serial in t.locks && t.locks[serial].expiresAt == row.expiresAt
  {
  }

  /** The moment and ttl of the last successful acquire or renew of a serial. */
  function LastExtension(hash: Hash, cmds: seq<Cmd>, serial: Serial): Option<(Micros, int)> {
    if cmds == [] then None
    else
      var c := Last(cmds);
      if ExtendsLock(hash, Run(hash, EMPTY, Init(cmds)), c, serial) then Some((c.now, c.ttl))
      else LastExtension(hash, Init(cmds), serial)
  }

  lemma {:induction false} ExpiryIsFromLastExtension(hash: Hash, cmds: seq<Cmd>, serial: Serial)
    requires serial in Run(hash, EMPTY, cmds).locks
    ensures var last := LastExtension(hash, cmds, serial);
            && last.Some?
            && Run(hash, EMPTY, cmds).locks[serial].expiresAt == Iso(last.value.0 + last.value.1 * SECOND)
  {
    var before := Run(hash, EMPTY, Init(cmds));
    StepExpiry(hash, before, Last(cmds), serial);
    if !ExtendsLock(hash, before, Last(cmds), serial) {
      ExpiryIsFromLastExtension(hash, Init(cmds), serial);
    }
  }

  /** A granted acquire for half an hour, and a renew for one minute in the same moment. */
  function ShorteningRun(): seq<Cmd> {
    [Acquire("s", "h", "p", None, 1800, 0, "t"), Renew("s", "t", 1, 60, 0)]
  }

  lemma ShortNamesAreValid()
    ensures ValidSerial("s") && ValidIdentity("h") && ValidIdentity("p")
  {
    assert Strip("h") == "h" && Strip("p") == "p";
  }

  lemma AcquiresFirst(hash: Hash)
    ensures var t := Step(hash, EMPTY, ShorteningRun()[0]).0;
            && "s" in t.locks && t.locks["s"].expiresAt == 1800
            && t.locks["s"].fencing == 1 && t.locks["s"].tokenHash == hash("t")
  {
    hide ValidSerial, ValidIdentity, Strip;
    ShortNamesAreValid();
  }

  lemma RenewsThen(hash: Hash, t: Tables)
    requires "s" in t.locks && t.locks["s"].expiresAt == 1800
    requires t.locks["s"].fencing == 1 && t.locks["s"].tokenHash == hash("t")
    ensures var (t', reply) := Step(hash, t, ShorteningRun()[1]);
            reply.Extended? && "s" in t'.locks && t'.locks["s"].expiresAt == 60
  {
    hide ValidSerial, ValidIdentity, Strip;
    ShortNamesAreValid();
  }

  /** A successful renew may move the expiry to an earlier moment. */
  lemma RenewMayShorten(hash: Hash)
    ensures ReplyAt(hash, EMPTY, ShorteningRun(), 1).Extended?
    ensures var early, late := Run(hash, EMPTY, ShorteningRun()[..1]), Run(hash, EMPTY, ShorteningRun());
            "s" in early.locks && "s" in late.locks && late.locks["s"].expiresAt < early.locks["s"].expiresAt
  {
    hide Step;
    var cmds := ShorteningRun();
    assert Init(cmds) == [cmds[0]] == cmds[..1] && Init([cmds[0]]) == [];
    assert Run(hash, EMPTY, []) == EMPTY;
    assert Run(hash, EMPTY, [cmds[0]]) == Step(hash, EMPTY, cmds[0]).0;
    AcquiresFirst(hash);
    RenewsThen(hash, Step(hash, EMPTY, cmds[0]).0);
  }

  /** HELD up to and including ttl - 1 s after m, and STALE from ttl on. */
  ghost predicate HeldForTtl(row: LockRow, m: Micros, ttl: int) {
    forall now :: (now <= m + (ttl - 1) * SECOND ==> Describe(Some(row), now) == HELD)
                  && (now >= m + ttl * SECOND ==> Describe(Some(row), now) == STALE)
  }

  lemma TruncatedExpiry(row: LockRow, m: Micros, ttl: int)
    requires row.expiresAt == Iso(m + ttl * SECOND)
    ensures HeldForTtl(row, m, ttl)
  {
  }

  /** Expiry is cut to whole seconds, so a lock of any run lasts between ttl - 1 s and ttl from its last extension. */
  lemma LockLastsItsTtl(hash: Hash, cmds: seq<Cmd>, serial: Serial)
    requires serial in Run(hash, EMPTY, cmds).locks
    ensures LastExtension(hash, cmds, serial).Some?
    ensures var (m, ttl) := LastExtension(hash, cmds, serial).value;
            HeldForTtl(Run(hash, EMPTY, cmds).locks[serial], m, ttl)
  {
    hide Step, Run, LastExtension, HeldForTtl;
    ExpiryIsFromLastExtension(hash, cmds, serial);
    var last := LastExtension(hash, cmds, serial);
    TruncatedExpiry(Run(hash, EMPTY, cmds).locks[serial], last.value.0, last.value.1);
  }

  /** No break succeeds within ttl - 1 s of the last acquire or renew, and no renew succeeds from ttl on. */
  lemma BreakAndRenewNeverOverlap(hash: Hash, cmds: seq<Cmd>, c: Cmd)
    requires !c.Acquire? && !Step(hash, Run(hash, EMPTY, cmds), c).1.Refused?
    ensures LastExtension(hash, cmds, c.serial).Some?
    ensures var (m, ttl) := LastExtension(hash, cmds, c.serial).value;
            && (c.BreakStale? ==> c.now > m + (ttl - 1) * SECOND)
            && (c.Renew? ==> c.now < m + ttl * SECOND)
  {
    LockLastsItsTtl(hash, cmds, c.serial);
  }
}
