/**
 * What a maintenance window is judged by: the device row with its accepted changes, the lock commands with their
 * senders, the turns of everybody else, and the trace of the window's own acts.
 */
module WindowRecords {
  import opened Common
  import opened DeviceLock
  import opened DeviceLockRuns

  const SERIAL := "b0644fb5"
  const HOLDER := "sol-v6-acceptance-20260928"
  /** In two parts, because the verifier does not look into literals of this length. */
  const PURPOSE := "Authorized OnePlus v6 " + "maintenance-recovery acceptance"
  const TASK := "three-device-oneplus-v6-maintenance-recovery"
  const LOCK_TTL := 1800

  // ----- the server's device row -----

  datatype Device = Device(maintenance: bool, version: int)

  const BEFORE := Device(false, 12)
  const DURING := Device(true, 13)
  const AFTER := Device(false, 14)

  /** `leased`: the server refuses maintenance changes while a lease is active. */
  datatype Request = Request(enabled: bool, expectedVersion: Option<int>, leased: bool)

  /** The server's compare-and-set: every accepted change raises the version by one. */
  function Serve(d: Device, r: Request): Option<Device> {
    if r.leased then None
    else if r.expectedVersion.Some? && r.expectedVersion.value != d.version then None
    else Some(Device(r.enabled, d.version + 1))
  }

  datatype Write = Write(ours: bool, from: Device, to: Device)

  const PREPARE := Write(true, BEFORE, DURING)
  const FINISH := Write(true, DURING, AFTER)

  ghost predicate Chained(history: seq<Write>, d: Device) {
    && (forall k :: 0 <= k < |history| ==> history[k].to.version == history[k].from.version + 1)
    && (forall k :: 0 < k < |history| ==> history[k].from == history[k - 1].to)
    && (history != [] ==> Last(history).to == d)
  }

  /** A change of the window is a prepare, or a finish that directly follows the window's own prepare. */
  predicate OwnWriteOk(history: seq<Write>, k: nat)
    requires k < |history|
  {
    history[k].ours ==> history[k] == PREPARE || (history[k] == FINISH && k > 0 && history[k - 1] == PREPARE)
  }

  ghost predicate OwnWrites(history: seq<Write>) {
    forall k :: 0 <= k < |history| ==> OwnWriteOk(history, k)
  }

  /** The changes made by the window. */
  function Own(history: seq<Write>): seq<Write> {
    if history == [] then [] else Own(Init(history)) + (if Last(history).ours then [Last(history)] else [])
  }

  lemma AppendWrite(history: seq<Write>, w: Write)
    ensures Own(history + [w]) == Own(history) + (if w.ours then [w] else [])
  {
    assert Init(history + [w]) == history && Last(history + [w]) == w;
  }

  lemma {:induction false} OwnIsExact(history: seq<Write>, w: Write)
    ensures w in Own(history) <==> w in history && w.ours
  {
    if history != [] {
      OwnIsExact(Init(history), w);
      assert history == Init(history) + [Last(history)];
    }
  }

  lemma {:induction false} VersionsClimb(history: seq<Write>, d: Device, a: nat, b: nat)
    requires Chained(history, d) && a <= b < |history|
    ensures history[b].from.version == history[a].from.version + (b - a)
  {
    if a < b { VersionsClimb(history, d, a, b - 1); }
  }

  /** While the device is at version 13, the window's prepare is the last change of anyone. */
  lemma PrepareIsLast(history: seq<Write>, d: Device)
    requires Chained(history, d) && PREPARE in history && d.version == DURING.version
    ensures history != [] && Last(history) == PREPARE && d == DURING
  {
    var a :| 0 <= a < |history| && history[a] == PREPARE;
    VersionsClimb(history, d, a, |history| - 1);
  }

  /** The window moves the device at most twice, whatever fails and however often it asks. */
  lemma AtMostOnePrepareAndOneFinish(history: seq<Write>, d: Device, a: nat, b: nat)
    requires Chained(history, d) && OwnWrites(history)
    requires a < b < |history| && history[a].ours && history[b].ours
    ensures history[a] == PREPARE && history[b] == FINISH && b == a + 1
  {
    VersionsClimb(history, d, a, b);
    assert OwnWriteOk(history, a) && OwnWriteOk(history, b);
  }

  lemma WriteGrows(history: seq<Write>, w: Write, d: Device)
    requires Chained(history, d) && OwnWrites(history) && w.from == d && w.to.version == d.version + 1
    requires w.ours ==> w == PREPARE || (w == FINISH && history != [] && Last(history) == PREPARE)
    ensures Chained(history + [w], w.to) && OwnWrites(history + [w])
  {
    var more := history + [w];
    forall k | 0 <= k < |more| ensures OwnWriteOk(more, k) {
      if k < |history| { assert OwnWriteOk(history, k); }
    }
  }

  // ----- everybody else, and what may go wrong -----

  /**
   * Before each external call of the window others run lock commands and maintenance requests. The call then
   * `fails` before it takes effect, or takes effect and its answer is `lost`, or the private file with the answer
   * cannot be saved.
   */
  datatype Turn = Turn(
    lockCommands: seq<Cmd>, requests: seq<Request>, now: Micros,
    fails: bool, lost: bool, saveFails: bool,
    leased: bool, identityOk: bool, idle: bool,
    heartbeats: nat, deferrals: nat, healthy: bool, secret: string)

  type Script = nat -> Turn

  function ScriptedCommands(script: Script, n: nat): seq<Cmd> {
    if n == 0 then [] else ScriptedCommands(script, n - 1) + script(n - 1).lockCommands
  }

  function ScriptedRequests(script: Script, n: nat): seq<Request> {
    if n == 0 then [] else ScriptedRequests(script, n - 1) + script(n - 1).requests
  }

  /** Nothing breaks in this turn, and nobody else asks for maintenance. Others may still send lock commands. */
  predicate Smooth(t: Turn) {
    && t.requests == [] && !t.fails && !t.lost && !t.saveFails && !t.leased && t.identityOk && t.idle
    && t.secret != ""
  }

  datatype Snapshot = Snapshot(device: Device, identityOk: bool, idle: bool)

  /** `assert_snapshot` and `validate_cloud`. */
  predicate ValidCloud(s: Snapshot, expected: Device) {
    s.device == expected && s.identityOk && s.idle
  }

  datatype Observation = Observation(heartbeats: nat, deferrals: nat, healthy: bool, cloudGatePassed: bool)

  predicate ValidObservation(o: Observation, requireDeferrals: bool) {
    o.heartbeats >= 3 && o.deferrals >= (if requireDeferrals then 2 else 0) && o.healthy && o.cloudGatePassed
  }

  // ----- the lock log -----

  /** A lock command that reached the store, and whether the window sent it. */
  datatype Entry = Entry(ours: bool, cmd: Cmd)

  function Commands(log: seq<Entry>): (r: seq<Cmd>)
    ensures |r| == |log| && forall k :: 0 <= k < |log| ==> r[k] == log[k].cmd
  {
    seq(|log|, k requires 0 <= k < |log| => log[k].cmd)
  }

  function Others(log: seq<Entry>): seq<Cmd> {
    if log == [] then [] else Others(Init(log)) + (if Last(log).ours then [] else [Last(log).cmd])
  }

  /** Where the window's own commands are. */
  function OwnIndices(log: seq<Entry>): seq<nat> {
    if log == [] then [] else OwnIndices(Init(log)) + (if Last(log).ours then [|log| - 1] else [])
  }

  lemma AppendEntry(log: seq<Entry>, e: Entry)
    ensures Commands(log + [e]) == Commands(log) + [e.cmd]
  {
  }

  lemma AppendOther(log: seq<Entry>, e: Entry)
    ensures Others(log + [e]) == Others(log) + (if e.ours then [] else [e.cmd])
  {
    assert Init(log + [e]) == log && Last(log + [e]) == e;
  }

  lemma AppendOwn(log: seq<Entry>, e: Entry)
    ensures OwnIndices(log + [e]) == OwnIndices(log) + (if e.ours then [|log|] else [])
  {
    assert Init(log + [e]) == log && Last(log + [e]) == e;
  }

  /** OwnIndices lists exactly the positions of the window's commands. */
  lemma {:induction false} OwnIndicesAreExact(log: seq<Entry>, i: nat)
    ensures i in OwnIndices(log) <==> i < |log| && log[i].ours
  {
    if log != [] { OwnIndicesAreExact(Init(log), i); }
  }

  lemma PrefixCommands(log: seq<Entry>, log': seq<Entry>)
    requires log <= log'
    ensures Commands(log) <= Commands(log')
  {
  }

  // ----- the trace -----

  datatype Act =
    /** A lock command of the window reached the store as this entry of the log. */
    | LockSent(index: nat)
    | LockReturned
    | PrepareAcknowledged
    | SawFinished(device: Device)
    /** The cleanup starts in this turn, with the device at this row. */
    | CleanupStarted(turn: nat, row: Device)
    /** The release call was made in this turn. */
    | ReleaseStarted(at: nat)

  function Sent(trace: seq<Act>): seq<nat> {
    if trace == [] then []
    else Sent(Init(trace)) + (match Last(trace) case LockSent(i) => [i] case _ => [])
  }

  lemma {:induction false} SentConcat(a: seq<Act>, b: seq<Act>)
    ensures Sent(a + b) == Sent(a) + Sent(b)
  {
    if b == [] {
      assert a + b == a;
    } else {
      assert Init(a + b) == a + Init(b) && Last(a + b) == Last(b);
      SentConcat(a, Init(b));
    }
  }

  lemma {:induction false} NothingSent(b: seq<Act>)
    requires forall e :: e in b ==> !e.LockSent?
    ensures Sent(b) == []
  {
    if b != [] {
      assert Last(b) in b;
      NothingSent(Init(b));
    }
  }

  lemma SentAppend(trace: seq<Act>, e: Act)
    ensures Sent(trace + [e]) == Sent(trace) + (match e case LockSent(i) => [i] case _ => [])
  {
    assert Init(trace + [e]) == trace && Last(trace + [e]) == e;
  }

  /** What the acts of maintenance say about the accepted changes. */
  ghost predicate ActOk(history: seq<Write>, e: Act) {
    match e
    case PrepareAcknowledged => PREPARE in history
    case SawFinished(d) => d == AFTER && exists w :: w in history && w.to == AFTER
    case _ => true
  }

  ghost predicate TraceOk(history: seq<Write>, trace: seq<Act>) {
    forall e :: e in trace ==> ActOk(history, e)
  }

  lemma TraceGrows(history: seq<Write>, trace: seq<Act>, w: Write)
    requires TraceOk(history, trace)
    ensures TraceOk(history + [w], trace)
  {
    forall e | e in trace ensures ActOk(history + [w], e) {
      assert ActOk(history, e);
      if e.SawFinished? {
        var v :| v in history && v.to == AFTER;
        assert v in history + [w];
      }
    }
  }

  // ----- the acquire, in terms of the turns -----

  datatype Lock = Lock(fencing: int, ownerToken: string)

  function AcquireOf(t: Turn): Cmd {
    Acquire(SERIAL, HOLDER, PURPOSE, Some(TASK), LOCK_TTL, t.now, t.secret)
  }

  function ReleaseOf(lock: Lock, t: Turn): Cmd {
    Release(SERIAL, lock.ownerToken, lock.fencing, t.now)
  }

  /** The serial is locked after these commands. */
  predicate Taken(hash: Hash, cmds: seq<Cmd>) {
    SERIAL in Run(hash, EMPTY, cmds).locks
  }

  /** The commands before the acquire, when the acquire is sent: the status must come back as FREE. */
  function BeforeAcquire(hash: Hash, before: seq<Cmd>, status: Turn, acquire: Turn): Option<seq<Cmd>> {
    var seen := before + status.lockCommands;
    if status.fails || status.lost || Taken(hash, seen) || acquire.fails then None
    else Some(seen + acquire.lockCommands)
  }

  function HandedBy(hash: Hash, sent: seq<Cmd>, acquire: Turn): Option<Lock> {
    if Taken(hash, sent) || acquire.lost || acquire.saveFails then None
    else Some(Lock(Counter(Run(hash, EMPTY, sent), SERIAL), acquire.secret))
  }

  /** A granted lock is handed over to the window unless the answer is lost or the private record is not saved. */
  function Handed(hash: Hash, before: seq<Cmd>, status: Turn, acquire: Turn): Option<Lock> {
    var sent := BeforeAcquire(hash, before, status, acquire);
    if sent.None? then None else HandedBy(hash, sent.value, acquire)
  }

  /** The acquire is entry |cmds| of the log, after exactly these commands. */
  ghost predicate AcquireEntry(cmds: seq<Cmd>, acquire: Turn, log: seq<Entry>) {
    |cmds| < |log| && Commands(log)[..|cmds|] == cmds && log[|cmds|] == Entry(true, AcquireOf(acquire))
  }

  /** Beyond the commands `own` the window sent one acquire, or nothing. */
  ghost predicate AcquireSent(sent: Option<seq<Cmd>>, acquire: Turn, own: seq<nat>, log: seq<Entry>) {
    match sent
    case None => OwnIndices(log) == own
    case Some(cmds) => AcquireEntry(cmds, acquire, log) && OwnIndices(log) == own + [|cmds|]
  }

  /** Unless its turn failed, one release of this lock follows the commands `own` and ends the log. */
  ghost predicate ReleaseSent(lock: Lock, t: Turn, own: seq<nat>, log: seq<Entry>) {
    if t.fails then OwnIndices(log) == own
    else log != [] && OwnIndices(log) == own + [|log| - 1] && Last(log) == Entry(true, ReleaseOf(lock, t))
  }

  /** The acknowledged fencing token, if the answer of the last command came through. */
  function ReleaseAnswer(hash: Hash, t: Turn, log: seq<Entry>): Option<int> {
    if t.fails || t.lost || t.saveFails || log == [] then None
    else
      var reply := ReplyAt(hash, EMPTY, Commands(log), |log| - 1);
      if reply.Freed? then Some(reply.releasedFencing) else None
  }

  lemma LastReply(hash: Hash, log: seq<Entry>, e: Entry)
    ensures ReplyAt(hash, EMPTY, Commands(log + [e]), |log|) == Step(hash, Run(hash, EMPTY, Commands(log)), e.cmd).1
  {
    hide Step, Run;
    AppendEntry(log, e);
    assert Commands(log + [e])[..|log|] == Commands(log);
  }

  lemma AppendedRun(hash: Hash, log: seq<Entry>, e: Entry)
    ensures Run(hash, EMPTY, Commands(log + [e])) == Step(hash, Run(hash, EMPTY, Commands(log)), e.cmd).0
    ensures OwnIndices(log + [e]) == OwnIndices(log) + (if e.ours then [|log|] else [])
  {
    hide Step;
    AppendEntry(log, e);
    AppendOwn(log, e);
    assert Init(Commands(log) + [e.cmd]) == Commands(log);
  }

  function ByOthers(cmds: seq<Cmd>): (r: seq<Entry>)
    ensures |r| == |cmds| && forall k :: 0 <= k < |cmds| ==> r[k] == Entry(false, cmds[k])
  {
    seq(|cmds|, k requires 0 <= k < |cmds| => Entry(false, cmds[k]))
  }

  lemma {:induction false} OthersOfOthers(cmds: seq<Cmd>)
    ensures Others(ByOthers(cmds)) == Commands(ByOthers(cmds)) == cmds && OwnIndices(ByOthers(cmds)) == []
  {
    if cmds != [] {
      OthersOfOthers(Init(cmds));
      assert Init(ByOthers(cmds)) == ByOthers(Init(cmds));
    }
  }

  /** What the window may do to the device row. */
  ghost predicate Permitted(w: Write, history: seq<Write>, trace: seq<Act>) {
    w == PREPARE || (w == FINISH && history != [] && Last(history) == PREPARE && PrepareAcknowledged in trace)
  }

  // ----- replies to the window's commands -----

  lemma StripKeeps(s: string)
    requires s != [] && !IsSpace(s[0]) && !IsSpace(Last(s))
    ensures Strip(s) == s
  {
  }

  lemma AcquireIsWellFormed(t: Turn)
    ensures AcquireOf(t).WellFormed()
  {
    NamesAreValid();
  }

  lemma NamesAreValid()
    ensures ValidSerial(SERIAL) && ValidIdentity(HOLDER) && ValidIdentity(PURPOSE) && ValidIdentity(TASK)
  {
    HolderIsValid();
    PurposeIsValid();
    TaskIsValid();
  }

  lemma HolderIsValid()
    ensures ValidIdentity(HOLDER)
  {
    StripKeeps(HOLDER);
  }

  lemma PurposeIsValid()
    ensures ValidIdentity(PURPOSE)
  {
    StripKeeps(PURPOSE);
  }

  lemma TaskIsValid()
    ensures ValidIdentity(TASK)
  {
    StripKeeps(TASK);
  }

  /** The window's acquire is granted exactly when the serial is free, with the next token of the serial. */
  lemma AcquireReply(hash: Hash, cmds: seq<Cmd>, t: Turn)
    ensures var reply := Step(hash, Run(hash, EMPTY, cmds), AcquireOf(t)).1;
            && (reply.Granted? <==> !Taken(hash, cmds))
            && (reply.Granted? ==>
                  reply.ownerToken == t.secret && reply.grantedFencing == Counter(Run(hash, EMPTY, cmds), SERIAL))
  {
    hide Run, ValidIdentity, ValidSerial, Counter;
    AcquireIsWellFormed(t);
  }

  lemma ReleaseReply(hash: Hash, t: Tables, lock: Lock, turn: Turn)
    ensures var reply := Step(hash, t, ReleaseOf(lock, turn)).1;
            reply.Refused? || (reply.Freed? && reply.releasedFencing == lock.fencing)
  {
  }
}
