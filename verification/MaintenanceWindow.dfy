/**
 * The maintenance window of artifacts/three-device-20260928/install-oneplus-v6.py with the cloud actions of
 * oneplus-v6-cloud.py, on top of the device lock.
 *
 * Everything outside the two scripts is a script of turns, one before each external call. Commands and requests
 * that are not marked as the window's own are those of the script and nothing else (`Valid`). Every operation says
 * which turns it takes, what it makes of them, and what the device row is afterwards.
 */
module MaintenanceWindow {
  import opened Common
  import opened DeviceLock
  import opened DeviceLockRuns
  import opened WindowRecords
  import opened WindowCourse
  import opened WindowStories

  class RealOperations {
    const store: DeviceLockStore
    const script: Script
    /** The lock commands of the time before the window. */
    const past: seq<Cmd>
    var tick: nat
    var maintenanceOwned: bool
    /** The server's row, its accepted changes, and the requests of others. */
    var device: Device
    var history: seq<Write>
    var asked: seq<Request>
    var lockLog: seq<Entry>
    var trace: seq<Act>

    /** The lock tables are those of the log, and the trace has the window's own commands. */
    ghost predicate LockKept()
      reads this`lockLog, this`trace, store
    {
      store.Contents() == Run(store.hash, EMPTY, Commands(lockLog)) && Sent(trace) == OwnIndices(lockLog)
    }

    /** The history leads to the row, the window's changes are in order, and the trace does not lie about them. */
    ghost predicate DeviceKept()
      reads this`device, this`history, this`trace
    {
      Chained(history, device) && OwnWrites(history) && TraceOk(history, trace)
    }

    ghost predicate Consistent()
      reads this`maintenanceOwned, this`device, this`history, this`lockLog, this`trace, store
    {
      LockKept() && DeviceKept() && (maintenanceOwned || FINISH in history ==> PrepareAcknowledged in trace)
    }

    /** Others did what the script says and nothing else. */
    ghost predicate ScriptKept()
      reads this`tick, this`asked, this`lockLog
    {
      Others(lockLog) == past + ScriptedCommands(script, tick) && asked == ScriptedRequests(script, tick)
    }

    ghost predicate Valid()
      reads this`tick, this`maintenanceOwned, this`device, this`history, this`asked, this`lockLog, this`trace, store
    {
      Consistent() && ScriptKept()
    }

    twostate predicate Grows()
      reads this`lockLog, this`history, this`tick
    {
      old(lockLog) <= lockLog && old(history) <= history && old(tick) <= tick
    }

    /** The window changed nothing on the server. */
    twostate predicate Quiet()
      reads this`lockLog, this`history, this`tick
    {
      Grows() && Own(history) == Own(old(history))
    }

    /** The window made exactly this change. */
    twostate predicate Wrote(w: Write)
      reads this`lockLog, this`history, this`tick
    {
      Grows() && Own(history) == Own(old(history)) + [w]
    }

    /** Others took n turns, and the device row is what they made of it. */
    twostate predicate Waited(n: nat)
      reads this`lockLog, this`history, this`tick, this`device
    {
      Quiet() && tick == old(tick) + n && device == RowAfter(script, old(device), old(tick), old(tick) + n)
    }

    /** The situation for a window that starts now. */
    ghost function Opens(): Opening
      reads this`tick, this`device, this`lockLog
    {
      Opening(store.hash, Commands(lockLog), script, tick, device)
    }

    /** A lock store reached by any commands, and any device row. */
    constructor (store: DeviceLockStore, past: seq<Cmd>, device: Device, script: Script)
      requires store.Contents() == Run(store.hash, EMPTY, past)
      ensures Valid() && this.store == store && this.script == script && this.past == past && this.device == device
      ensures tick == 0 && Commands(lockLog) == past && history == [] && !maintenanceOwned && trace == []
    {
      hide Run, Step;
      this.store, this.script, this.past, this.device := store, script, past, device;
      tick, maintenanceOwned, history, asked, trace := 0, false, [], [], [];
      lockLog := ByOthers(past);
      OthersOfOthers(past);
    }

    // ----- what reaches the store and the server -----

    method RunForeign(c: Cmd)
      requires Consistent()
      modifies this`lockLog, store
      ensures Consistent() && lockLog == old(lockLog) + [Entry(false, c)]
    {
      hide Run, Step, DeviceKept, Sent;
      var reply := store.Apply(c);
      AppendedRun(store.hash, lockLog, Entry(false, c));
      lockLog := lockLog + [Entry(false, c)];
    }

    /** A lock command of the window: the trace says where it is in the log. */
    method RunOwn(c: Cmd) returns (reply: Reply)
      requires Consistent()
      modifies this`lockLog, this`trace, store
      ensures Consistent()
      ensures lockLog == old(lockLog) + [Entry(true, c)] && trace == old(trace) + [LockSent(|old(lockLog)|)]
      ensures reply == Step(store.hash, Run(store.hash, EMPTY, Commands(old(lockLog))), c).1
    {
      hide Run, Step, Chained, OwnWrites, Sent;
      reply := store.Apply(c);
      AppendedRun(store.hash, lockLog, Entry(true, c));
      SentAppend(trace, LockSent(|lockLog|));
      trace := trace + [LockSent(|lockLog|)];
      lockLog := lockLog + [Entry(true, c)];
    }

    /** One maintenance request to the server. */
    method Post(r: Request, ours: bool) returns (accepted: bool)
      requires Consistent()
      requires ours && Serve(device, r).Some? ==> Permitted(Write(true, device, Serve(device, r).value), history, trace)
      modifies this`device, this`history, this`asked
      ensures Consistent()
      ensures asked == old(asked) + (if ours then [] else [r])
      ensures accepted <==> Serve(old(device), r).Some?
      ensures accepted ==>
                device == Serve(old(device), r).value && history == old(history) + [Write(ours, old(device), device)]
      ensures !accepted ==> device == old(device) && history == old(history)
      ensures accepted && ours ==> Wrote(Write(true, old(device), device))
      ensures !accepted || !ours ==> Quiet()
    {
      hide TraceOk, Chained, OwnWrites, Own, LockKept;
      asked := asked + (if ours then [] else [r]);
      var served := Serve(device, r);
      if served.None? { return false; }
      var w := Write(ours, device, served.value);
      TraceGrows(history, trace, w);
      WriteGrows(history, w, device);
      AppendWrite(history, w);
      history := history + [w];
      device := served.value;
      return true;
    }

    method RunForeignCommands(cmds: seq<Cmd>)
      requires Consistent()
      modifies this`lockLog, store
      ensures Consistent() && old(lockLog) <= lockLog
      ensures Commands(lockLog) == Commands(old(lockLog)) + cmds
      ensures Others(lockLog) == Others(old(lockLog)) + cmds
    {
      hide LockKept, DeviceKept, Others, Commands;
      for k := 0 to |cmds|
        invariant Consistent() && old(lockLog) <= lockLog
        invariant Commands(lockLog) == Commands(old(lockLog)) + cmds[..k]
        invariant Others(lockLog) == Others(old(lockLog)) + cmds[..k]
      {
        AppendEntry(lockLog, Entry(false, cmds[k]));
        AppendOther(lockLog, Entry(false, cmds[k]));
        RunForeign(cmds[k]);
      }
      assert cmds[..|cmds|] == cmds;
    }

    method PostForeignRequests(requests: seq<Request>)
      requires Consistent()
      modifies this`device, this`history, this`asked
      ensures Consistent() && Quiet() && asked == old(asked) + requests
      ensures device == Served(old(device), requests)
    {
      hide LockKept, DeviceKept, Own;
      for k := 0 to |requests|
        invariant Consistent() && Quiet() && asked == old(asked) + requests[..k]
        invariant device == Served(old(device), requests[..k])
      {
        assert Init(requests[..k + 1]) == requests[..k];
        var accepted := Post(requests[k], false);
      }
      assert requests[..|requests|] == requests;
    }

    /** The log and the trace agree on the window's commands. */
    lemma SentIsOwn()
      requires Consistent()
      ensures Sent(trace) == OwnIndices(lockLog)
    {
    }

    lemma SentIsOwned()
      requires Valid()
      ensures Sent(trace) == OwnIndices(lockLog)
    {
      SentIsOwn();
    }

    lemma OthersScripted()
      requires Valid()
      ensures Others(lockLog) == past + ScriptedCommands(script, tick)
    {
    }

    lemma NothingOwn()
      requires Valid() && trace == []
      ensures OwnIndices(lockLog) == []
    {
      EmptySent();
    }

    /** Others take their turn. They cannot change the device without changing its version. */
    method Await() returns (t: Turn)
      requires Valid()
      modifies this`tick, this`device, this`history, this`asked, this`lockLog, store
      ensures Valid() && Waited(1) && t == script(old(tick))
      ensures Commands(lockLog) == Commands(old(lockLog)) + t.lockCommands
      ensures OwnIndices(lockLog) == OwnIndices(old(lockLog))
      ensures device.version == old(device).version ==> device == old(device)
    {
      hide LockKept, DeviceKept, Others, OwnIndices, Sent, Commands, Own, Served, RowAfter;
      RowOne(script, device, tick);
      t := script(tick);
      SentIsOwn();
      RunForeignCommands(t.lockCommands);
      PostForeignRequests(t.requests);
      SentIsOwn();
      ServedVersion(old(device), t.requests);
      tick := tick + 1;
    }

    // ----- oneplus-v6-cloud.py -----

    method CloudSnapshot() returns (r: Option<Snapshot>)
      requires Valid()
      modifies this`tick, this`device, this`history, this`asked, this`lockLog, store
      ensures Valid() && Waited(1)
      ensures var t := script(old(tick));
              r == if Answered(t) then Some(Snapshot(device, t.identityOk, t.idle)) else None
    {
      hide Valid, RowAfter, Own;
      var t := Await();
      if t.fails || t.lost { return None; }
      return Some(Snapshot(device, t.identityOk, t.idle));
    }

    /** POST of an exact compare-and-set; an error status and a lost answer both raise. */
    method SetMaintenance(enabled: bool, expected: int) returns (ok: bool)
      requires Valid()
      requires if enabled then expected == 12 && device == BEFORE
               else expected == 13 && device == DURING && PrepareAcknowledged in trace
      modifies this`tick, this`device, this`history, this`asked, this`lockLog, store
      ensures Valid() && tick == old(tick) + 1
      ensures if Lands(script, old(tick), old(device)) then
                device == (if enabled then DURING else AFTER) && Wrote(if enabled then PREPARE else FINISH)
              else Waited(1)
      ensures ok <==> Lands(script, old(tick), old(device)) && !script(old(tick)).lost
    {
      hide LockKept, DeviceKept, Own, RowAfter, Commands, OwnIndices, Others, ScriptedCommands, ScriptedRequests;
      var t := Await();
      if t.fails { return false; }
      MayPost(enabled, t.leased);
      var accepted := Post(Request(enabled, Some(expected), t.leased), true);
      return accepted && !t.lost;
    }

    /** At version 12 the window may prepare; at version 13, after its own prepare, it may finish. */
    lemma MayPost(enabled: bool, leased: bool)
      requires Consistent()
      requires if enabled then device.version == 12 ==> device == BEFORE
               else (device.version == 13 ==> device == DURING) && PrepareAcknowledged in trace
      ensures var r := Request(enabled, Some(if enabled then 12 else 13), leased);
              Serve(device, r).Some? ==> Permitted(Write(true, device, Serve(device, r).value), history, trace)
    {
      hide Chained, OwnWrites, LockKept;
      if !enabled && device.version == 13 {
        assert ActOk(history, PrepareAcknowledged);
        PrepareIsLast(history, device);
      }
    }

    /** `prepare-cas` */
    method PrepareCas() returns (acknowledged: bool)
      requires Valid()
      modifies this`tick, this`device, this`history, this`asked, this`lockLog, store
      ensures Valid()
      ensures if PrepareLands(script, old(tick), old(device)) then
                tick == old(tick) + 2 && device == DURING && Wrote(PREPARE)
              else Quiet()
      ensures acknowledged <==> PrepareLands(script, old(tick), old(device)) && !script(old(tick) + 1).lost
    {
      hide Valid, RowAfter, Own;
      var current := CloudSnapshot();
      if current.None? || !ValidCloud(current.value, BEFORE) { return false; }
      acknowledged := SetMaintenance(true, 12);
    }

    lemma OwnerPrepared()
      requires Valid() && maintenanceOwned
      ensures PrepareAcknowledged in trace
    {
    }

    /** `finish-owned`, called by the owner: it writes only from (on, 13) and is idempotent at (off, 14). */
    method FinishOwned() returns (r: Option<Snapshot>)
      requires Valid() && maintenanceOwned
      modifies this`tick, this`device, this`history, this`asked, this`lockLog, store
      ensures Valid()
      ensures tick == old(tick) + FinishTurns(script, old(tick), old(device))
      ensures device == FinishRow(script, old(tick), old(device))
      ensures if FinishLands(script, old(tick), old(device)) then Wrote(FINISH) else Quiet()
      ensures r == if FinishSeen(script, old(tick), old(device)) then Some(Snapshot(AFTER, true, script(tick - 1).idle))
                   else None
      ensures r.Some? ==> device == AFTER
    {
      hide Valid, RowAfter, Own;
      OwnerPrepared();
      RowOne(script, AFTER, tick + 2);
      RowCompose(script, device, tick, tick + 1, tick + 2);
      var current := CloudSnapshot();
      if current.None? || !current.value.identityOk { return None; }
      if current.value.device == DURING {
        var ok := SetMaintenance(false, 13);
        if !ok { return None; }
        var updated := CloudSnapshot();
        if updated.None? || !updated.value.identityOk || updated.value.device != AFTER { return None; }
        return updated;
      }
      if current.value.device == AFTER { return current; }
      return None;
    }

    // ----- the operations of the window; false and None stand for a raised exception -----

    method Note(e: Act)
      requires Valid() && !e.LockSent? && ActOk(history, e)
      modifies this`trace
      ensures Valid() && trace == old(trace) + [e]
    {
      hide Chained, OwnWrites, Run, ActOk, OwnIndices, Sent, Commands, ScriptKept;
      SentAppend(trace, e);
      trace := trace + [e];
    }

    method SetOwned(owned: bool)
      requires Valid() && (owned ==> PrepareAcknowledged in trace)
      modifies this`maintenanceOwned
      ensures Valid() && maintenanceOwned == owned
    {
      hide LockKept, DeviceKept, ScriptKept;
      if !owned { FinishNeedsPrepare(); }
      maintenanceOwned := owned;
    }

    lemma FinishNeedsPrepare()
      requires Valid()
      ensures OwnWrites(history) && (FINISH in history ==> PrepareAcknowledged in trace)
    {
    }

    /** A step that touches neither the lock nor the maintenance row. */
    method LocalStep() returns (ok: bool, t: Turn)
      requires Valid()
      modifies this`tick, this`device, this`history, this`asked, this`lockLog, store
      ensures Valid() && Waited(1) && t == script(old(tick)) && ok == Intact(t)
      ensures Commands(lockLog) == Commands(old(lockLog)) + t.lockCommands
      ensures OwnIndices(lockLog) == OwnIndices(old(lockLog))
    {
      hide Valid, Commands, OwnIndices, Own, RowAfter;
      t := Await();
      ok := !t.fails && !t.lost && !t.saveFails;
    }

    /** The acquire itself, in this turn, after exactly the commands in the log. */
    method SendAcquire(t: Turn) returns (r: Option<Lock>)
      requires Valid()
      modifies this`lockLog, this`trace, store
      ensures Valid() && old(lockLog) <= lockLog
      ensures var sent := Commands(old(lockLog));
              && r == HandedBy(store.hash, sent, t)
              && AcquireSent(Some(sent), t, OwnIndices(old(lockLog)), lockLog)
              && trace == old(trace) + [LockSent(|sent|)] + (if r.Some? then [LockReturned] else [])
    {
      hide DeviceKept, Run, Step, Others, Sent, Commands, ScriptedCommands, OwnIndices, Counter, Taken;
      AcquireReply(store.hash, Commands(lockLog), t);
      AppendEntry(lockLog, Entry(true, AcquireOf(t)));
      AppendOther(lockLog, Entry(true, AcquireOf(t)));
      AppendOwn(lockLog, Entry(true, AcquireOf(t)));
      var reply := RunOwn(Acquire(SERIAL, HOLDER, PURPOSE, Some(TASK), LOCK_TTL, t.now, t.secret));
      if !reply.Granted? || t.lost || t.saveFails { return None; }
      Note(LockReturned);
      return Some(Lock(reply.grantedFencing, reply.ownerToken));
    }

    /** What the lock table says about the serial is what the log says. */
    lemma TableIsLog()
      requires Valid()
      ensures SERIAL in store.locks <==> Taken(store.hash, Commands(lockLog))
    {
      hide Run, Commands;
    }

    /**
     * The acquire is sent in the second turn, exactly when the first one answers FREE and the second does not
     * fail; the lock is handed over exactly when it is granted and its answer and record survive.
     */
    method AcquireLock() returns (r: Option<Lock>)
      requires Valid()
      modifies this`tick, this`device, this`history, this`asked, this`lockLog, this`trace, store
      ensures Valid() && Quiet() && (r.Some? ==> Waited(2))
      ensures var status, acquire := script(old(tick)), script(old(tick) + 1);
              var before := Commands(old(lockLog));
              var sent := BeforeAcquire(store.hash, before, status, acquire);
              && r == Handed(store.hash, before, status, acquire)
              && AcquireSent(sent, acquire, OwnIndices(old(lockLog)), lockLog)
              && trace == old(trace) + (if sent.Some? then [LockSent(|sent.value|)] else [])
                                     + (if r.Some? then [LockReturned] else [])
    {
      hide Valid, Run, Commands, OwnIndices, Taken, HandedBy, AcquireEntry, Own, RowAfter;
      RowCompose(script, device, tick, tick + 1, tick + 2);
      var t := Await();
      TableIsLog();
      if t.fails || t.lost || Describe(Row(store.locks, SERIAL), t.now) != FREE { return None; }
      t := Await();
      if t.fails { return None; }
      r := SendAcquire(t);
    }

    /** `validate_cloud` of a snapshot, with identity and occupancy as required. */
    method PassGate(expected: Device) returns (ok: bool)
      requires Valid()
      modifies this`tick, this`device, this`history, this`asked, this`lockLog, store
      ensures Valid() && Waited(1) && ok == GateOpen(script(old(tick)), device, expected)
    {
      hide Valid, Own, RowAfter;
      var s := CloudSnapshot();
      ok := s.Some? && ValidCloud(s.value, expected);
    }

    /** Local checks, a gate, and the record of it. */
    method Checks(expected: Device) returns (ok: bool)
      requires Valid()
      modifies this`tick, this`device, this`history, this`asked, this`lockLog, store
      ensures Valid() && Waited(ChecksTurns(script, old(tick), old(device), expected))
      ensures ok == ChecksPass(script, old(tick), old(device), expected)
    {
      hide Valid, Own, RowAfter, Commands, OwnIndices, GateOpen;
      RowCompose(script, device, tick, tick + 1, tick + 2);
      RowCompose(script, device, tick, tick + 2, tick + 3);
      var t;
      ok, t := LocalStep();
      if !ok { return; }
      ok := PassGate(expected);
      if !ok { return; }
      ok, t := LocalStep();
    }

    method LockedPreflight() returns (ok: bool)
      requires Valid()
      modifies this`tick, this`device, this`history, this`asked, this`lockLog, store
      ensures Valid() && Waited(ChecksTurns(script, old(tick), old(device), BEFORE))
      ensures ok == ChecksPass(script, old(tick), old(device), BEFORE)
    {
      ok := Checks(BEFORE);
    }

    /** Ownership is taken with the acknowledgement. */
    method TakeOwnership() returns (ok: bool)
      requires Valid() && !maintenanceOwned
      modifies this`tick, this`device, this`history, this`asked, this`lockLog, this`trace, this`maintenanceOwned, store
      ensures Valid()
      ensures if PrepareLands(script, old(tick), old(device)) then
                tick == old(tick) + 2 && device == DURING && Wrote(PREPARE)
              else Quiet()
      ensures ok <==> PrepareLands(script, old(tick), old(device)) && !script(old(tick) + 1).lost
      ensures maintenanceOwned == ok && trace == old(trace) + (if ok then [PrepareAcknowledged] else [])
    {
      hide Valid, Own, PrepareLands;
      ghost var was := history;
      ok := PrepareCas();
      if !ok { return; }
      WrittenIsThere(was, PREPARE);
      Note(PrepareAcknowledged);
      SetOwned(true);
    }

    lemma WrittenIsThere(was: seq<Write>, w: Write)
      requires Own(history) == Own(was) + [w]
      ensures w in history
    {
      OwnIsExact(history, w);
    }

    /** Ownership stands whatever happens to the checks after it. */
    method PrepareMaintenance() returns (ok: bool)
      requires Valid() && !maintenanceOwned
      modifies this`tick, this`device, this`history, this`asked, this`lockLog, this`trace, this`maintenanceOwned, store
      ensures Valid() && if PrepareLands(script, old(tick), old(device)) then Wrote(PREPARE) else Quiet()
      ensures maintenanceOwned <==> PrepareLands(script, old(tick), old(device)) && !script(old(tick) + 1).lost
      ensures trace == old(trace) + (if maintenanceOwned then [PrepareAcknowledged] else [])
      ensures var s := old(tick) + 2;
              if maintenanceOwned then
                && tick == s + ChecksTurns(script, s, DURING, DURING) && device == RowAfter(script, DURING, s, tick)
                && ok == ChecksPass(script, s, DURING, DURING)
              else !ok && (PrepareLands(script, old(tick), old(device)) ==> tick == s && device == DURING)
    {
      hide Valid, Own, PrepareLands, ChecksTurns, ChecksPass, RowAfter;
      ok := TakeOwnership();
      if !ok { return; }
      ok := Checks(DURING);
    }

    /** The counts of the first turn, a snapshot and the journal. */
    method Observe(expected: Device) returns (r: Option<Observation>)
      requires Valid()
      modifies this`tick, this`device, this`history, this`asked, this`lockLog, store
      ensures Valid() && Waited(ObservationTurns(script, old(tick)))
      ensures r == if ObservationEnds(script, old(tick)) then
                     Some(ObservationOf(script, old(tick), old(device), expected))
                   else None
    {
      hide Valid, Own, RowAfter, Commands, OwnIndices;
      RowCompose(script, device, tick, tick + 1, tick + 2);
      RowCompose(script, device, tick, tick + 2, tick + 3);
      var ok, t := LocalStep();
      if !ok { return None; }
      var s := CloudSnapshot();
      if s.None? { return None; }
      var journal, _ := LocalStep();
      if !journal { return None; }
      return Some(Observation(t.heartbeats, t.deferrals, t.healthy, ValidCloud(s.value, expected)));
    }

    /** Without ownership nothing is asked of the server. */
    method FinishMaintenance() returns (ok: bool)
      requires Valid()
      modifies this`tick, this`device, this`history, this`asked, this`lockLog, this`trace, this`maintenanceOwned, store
      ensures Valid()
      ensures !old(maintenanceOwned) ==>
                !ok && !maintenanceOwned && Waited(0) && trace == old(trace)
      ensures old(maintenanceOwned) ==>
                var s, d := old(tick), old(device);
                var turns := FinishTurns(script, s, d);
                var ended := FinishSeen(script, s, d) && script(s + turns - 1).idle;
                && (if FinishLands(script, s, d) then Wrote(FINISH) else Quiet())
                && maintenanceOwned == !ended
                && trace == old(trace) + (if ended then [SawFinished(AFTER)] else [])
                && ok == (ended && Intact(script(s + turns)))
                && (if ended then tick == s + turns + 1 && device == RowAfter(script, AFTER, s + turns, tick)
                    else tick == s + turns && device == FinishRow(script, s, d))
    {
      hide Valid, Own, RowAfter, FinishTurns, FinishSeen, FinishLands, FinishRow, Commands, OwnIndices;
      RowOne(script, device, tick);
      if !maintenanceOwned { return false; }
      OwnerPrepared();
      var finished := FinishOwned();
      if finished.None? || !ValidCloud(finished.value, AFTER) { return false; }
      FinishIsSeen();
      SetOwned(false);
      Note(SawFinished(finished.value.device));
      var t;
      ok, t := LocalStep();
    }

    /** After an acknowledged prepare, a device at version 14 was changed to it. */
    lemma FinishIsSeen()
      requires Valid() && PrepareAcknowledged in trace && device == AFTER
      ensures ActOk(history, SawFinished(AFTER))
    {
      hide LockKept, ScriptKept, OwnWrites;
      assert ActOk(history, PrepareAcknowledged);
      assert Last(history) in history;
    }

    /** `finish-owned` by the owner, and the record of it. */
    method FinishAndRecord() returns (ok: bool)
      requires Valid() && maintenanceOwned
      modifies this`tick, this`device, this`history, this`asked, this`lockLog, this`trace, this`maintenanceOwned, store
      ensures Valid()
      ensures var s, d := old(tick), old(device);
              && (if FinishLands(script, s, d) then Wrote(FINISH) else Quiet())
              && maintenanceOwned == !FinishSeen(script, s, d)
              && trace == old(trace) + (if FinishSeen(script, s, d) then [SawFinished(AFTER)] else [])
              && ok == (FinishSeen(script, s, d) && Intact(script(s + FinishTurns(script, s, d))))
    {
      hide Valid, Own, RowAfter, FinishTurns, FinishSeen, FinishLands, FinishRow, Commands, OwnIndices;
      OwnerPrepared();
      var cleanup := FinishOwned();
      if cleanup.None? { return false; }
      FinishIsSeen();
      SetOwned(false);
      Note(SawFinished(cleanup.value.device));
      var t;
      ok, t := LocalStep();
    }

    method CleanupMaintenance() returns (ok: bool)
      requires Valid()
      modifies this`tick, this`device, this`history, this`asked, this`lockLog, this`trace, this`maintenanceOwned, store
      ensures Valid()
      ensures !old(maintenanceOwned) ==>
                !ok && !maintenanceOwned && Waited(0) && trace == old(trace) + [CleanupStarted(old(tick), old(device))]
      ensures old(maintenanceOwned) ==>
                var s, d := old(tick), old(device);
                && (if FinishLands(script, s, d) then Wrote(FINISH) else Quiet())
                && maintenanceOwned == !FinishSeen(script, s, d)
                && trace == old(trace) + CleanupActsAt(script, s, d)
                && ok == CleanupPasses(script, s, d)
    {
      hide Valid, Own, RowAfter, FinishTurns, FinishSeen, FinishLands;
      RowOne(script, device, tick);
      Note(CleanupStarted(tick, device));
      if !maintenanceOwned { return false; }
      ok := FinishAndRecord();
    }

    method FinalVerify() returns (ok: bool)
      requires Valid()
      modifies this`tick, this`device, this`history, this`asked, this`lockLog, store
      ensures Valid() && Waited(ChecksTurns(script, old(tick), old(device), AFTER))
      ensures ok == ChecksPass(script, old(tick), old(device), AFTER)
    {
      ok := Checks(AFTER);
    }

    /** One turn. Unless it fails, exactly one release of exactly this token reaches the store. */
    method ReleaseLock(lock: Lock) returns (r: Option<int>)
      requires Valid()
      modifies this`tick, this`device, this`history, this`asked, this`lockLog, this`trace, store
      ensures Valid() && Waited(1)
      ensures ReleaseSent(lock, script(old(tick)), OwnIndices(old(lockLog)), lockLog)
      ensures trace == old(trace) + ReleaseActs(old(tick), script(old(tick)).fails, lockLog)
      ensures r == ReleaseAnswer(store.hash, script(old(tick)), lockLog)
      ensures r.Some? ==> r.value == lock.fencing
    {
      hide DeviceKept, Run, Step, Others, OwnIndices, Sent, Commands, ScriptedCommands, ScriptedRequests, Own, RowAfter;
      Note(ReleaseStarted(tick));
      var t := Await();
      if t.fails { return None; }
      ghost var e := Entry(true, ReleaseOf(lock, t));
      AppendEntry(lockLog, e);
      AppendOther(lockLog, e);
      AppendOwn(lockLog, e);
      ReleaseReply(store.hash, Run(store.hash, EMPTY, Commands(lockLog)), lock, t);
      LastReply(store.hash, lockLog, e);
      var reply := RunOwn(Release(SERIAL, lock.ownerToken, lock.fencing, t.now));
      if !reply.Freed? || t.lost || t.saveFails { return None; }
      return Some(reply.releasedFencing);
    }
  }

  // ----- execute_window -----

  /** The first two stages. */
  method TakeLock(ops: RealOperations, ghost o: Opening) returns (result: WindowResult, lock: Option<Lock>)
    requires ops.Valid() && ops.trace == [] && !ops.maintenanceOwned && OwnIndices(ops.lockLog) == []
    requires o == ops.Opens()
    modifies ops, ops.store
    ensures ops.Valid() && ops.Quiet() && !ops.maintenanceOwned
    ensures lock == o.Handed() && ops.trace == o.LockActs()
    ensures AcquireSent(o.Sent(), o.script(o.start + 2), [], ops.lockLog)
    ensures lock.Some? ==> ops.Waited(3)
    ensures result == UNFINISHED.(stages := result.stages,
                                  fencing := if lock.Some? then Some(lock.value.fencing) else None)
    ensures result.stages == ALL_STAGES[..if lock.Some? then 2 else if Intact(o.script(o.start)) then 1 else 0]
  {
    hide RealOperations.Valid, OwnIndices, Commands, BeforeAcquire, Handed, AcquireSent, Own, RowAfter;
    RowCompose(o.script, o.device, o.start, o.start + 1, o.start + 3);
    OpensUnlocked(o, Intact(o.script(o.start)));
    result, lock := UNFINISHED, None;
    NothingSentYet(o, ops.lockLog);
    ghost var log := ops.lockLog;
    var ok, t := ops.LocalStep();
    if !ok {
      NothingSentYet(o, ops.lockLog);
      return;
    }
    result := result.(stages := ALL_STAGES[..1]);
    lock := ops.AcquireLock();
    if lock.Some? {
      result := result.(fencing := Some(lock.value.fencing), stages := ALL_STAGES[..2]);
    }
  }

  /** The prepare and the install, after the preflight. */
  method PrepareAndInstall(ops: RealOperations, ghost o: Opening, before: WindowResult)
    returns (result: WindowResult, ok: bool)
    requires ops.Valid() && !ops.maintenanceOwned && o.Handed().Some? && ops.script == o.script
    requires Preflighted(o.script, o.start, o.device)
    requires ops.tick == o.start + 6 && ops.device == RowAfter(o.script, o.device, o.start, o.start + 6)
    modifies ops, ops.store
    ensures ops.Valid() && if o.Prepared() then ops.Wrote(PREPARE) else ops.Quiet()
    ensures ops.maintenanceOwned == o.Owned()
    ensures ops.trace == old(ops.trace) + (if o.Owned() then [PrepareAcknowledged] else [])
    ensures ok == Installed(o.script, o.start, o.device)
    ensures ok ==> ops.tick == o.start + 12 && ops.device == RowInside(o.script, o.start, o.start + 12)
    ensures !ok && o.Owned() ==>
              ops.tick == CleanupTurn(o.script, o.start) && ops.device == CleanupRow(o.script, o.start)
    ensures o.Prepared() && !o.Owned() ==> ops.tick == o.start + 8 && ops.device == DURING
    ensures result == before.(stages := ALL_STAGES[..if Installed(o.script, o.start, o.device) then 5
                                                    else if Entered(o.script, o.start, o.device) then 4 else 3])
  {
    hide RealOperations.Valid, Commands, OwnIndices, Own, RowAfter, RowInside, PrepareLands, ChecksPass, ChecksTurns;
    hide Preflighted, Entered, Installed, CleanupTurn, CleanupRow, Opening.Prepared, Opening.Owned, Opening.Handed;
    EnterFacts(o);
    InsideFacts(o);
    var t;
    result := before.(stages := ALL_STAGES[..3]);
    ok := ops.PrepareMaintenance();
    if !ok { return; }
    result := result.(stages := ALL_STAGES[..4]);
    ok, t := ops.LocalStep();
    if ok { result := result.(stages := ALL_STAGES[..5]); }
  }

  /** The three stages under the lock up to the install. */
  method EnterMaintenance(ops: RealOperations, ghost o: Opening, before: WindowResult)
    returns (result: WindowResult, ok: bool)
    requires ops.Valid() && !ops.maintenanceOwned && o.Handed().Some? && ops.script == o.script
    requires ops.tick == o.start + 3 && ops.device == RowAfter(o.script, o.device, o.start, o.start + 3)
    modifies ops, ops.store
    ensures ops.Valid() && if o.Prepared() then ops.Wrote(PREPARE) else ops.Quiet()
    ensures ops.maintenanceOwned == o.Owned()
    ensures ops.trace == old(ops.trace) + (if o.Owned() then [PrepareAcknowledged] else [])
    ensures ok == Installed(o.script, o.start, o.device)
    ensures ok ==> ops.tick == o.start + 12 && ops.device == RowInside(o.script, o.start, o.start + 12)
    ensures !ok && o.Owned() ==>
              ops.tick == CleanupTurn(o.script, o.start) && ops.device == CleanupRow(o.script, o.start)
    ensures o.Prepared() && !o.Owned() ==> ops.tick == o.start + 8 && ops.device == DURING
    ensures result == before.(stages := ALL_STAGES[..
              if Installed(o.script, o.start, o.device) then 5 else if Entered(o.script, o.start, o.device) then 4
              else if Preflighted(o.script, o.start, o.device) then 3 else 2])
  {
    hide RealOperations.Valid, Commands, OwnIndices, Own, RowAfter, RowInside, PrepareLands, ChecksPass, ChecksTurns;
    hide Preflighted, Entered, Installed, CleanupTurn, CleanupRow, Opening.Prepared, Opening.Owned, Opening.Handed;
    EnterFacts(o);
    InsideFacts(o);
    PassedChecks(o.script, o.start + 3, ops.device, BEFORE);
    ok := ops.LockedPreflight();
    if !ok {
      result := before.(stages := ALL_STAGES[..2]);
      return;
    }
    result, ok := PrepareAndInstall(ops, o, before);
  }

  /** The maintenance observation and the finish. */
  method FinishStage(ops: RealOperations, ghost o: Opening, before: WindowResult)
    returns (result: WindowResult, finished: bool)
    requires ops.Valid() && ops.maintenanceOwned && o.Owned() && Installed(o.script, o.start, o.device)
    requires ops.script == o.script
    requires ops.tick == o.start + 12 && ops.device == RowInside(o.script, o.start, o.start + 12)
    requires before.stages == ALL_STAGES[..5] && !before.maintenanceRecovery
    modifies ops, ops.store
    ensures ops.Valid()
    ensures if o.TriesFinish() && FinishLands(o.script, o.start + 15, RowInside(o.script, o.start, o.start + 15))
            then ops.Wrote(FINISH) else ops.Quiet()
    ensures ops.maintenanceOwned == !Ended(o.script, o.start, o.device)
    ensures ops.trace == old(ops.trace) + (if Ended(o.script, o.start, o.device) then [SawFinished(AFTER)] else [])
    ensures finished == Finished(o.script, o.start, o.device)
    ensures finished ==> ops.tick == Exit(o.script, o.start) + 1
                         && ops.device == RowOutside(o.script, o.start, Exit(o.script, o.start) + 1)
    ensures ops.maintenanceOwned ==>
              ops.tick == CleanupTurn(o.script, o.start) && ops.device == CleanupRow(o.script, o.start)
    ensures result == before.(maintenanceRecovery := Recovery(o.script, o.start, o.device),
                              stages := ALL_STAGES[..if finished then 6 else 5])
  {
    hide RealOperations.Valid, Commands, OwnIndices, Own, RowAfter, FinishTurns, FinishSeen, FinishLands, FinishRow;
    hide Ended, Finished, Installed, Exit, RowInside, RowOutside, CleanupTurn, CleanupRow, Recovery, Opening.Owned;
    hide ObservationEnds, ObservationTurns, ObservationOf;
    ObservationFacts(o);
    result, finished := before, false;
    var observation := ops.Observe(DURING);
    if observation.None? { return; }
    FinishFacts(o);
    if ValidObservation(observation.value, true) { result := result.(maintenanceRecovery := true); }
    finished := ops.FinishMaintenance();
    if finished { result := result.(stages := ALL_STAGES[..6]); }
  }

  /** The observation after maintenance and the final gates. */
  method ProveStage(ops: RealOperations, ghost o: Opening, before: WindowResult) returns (result: WindowResult)
    requires ops.Valid() && Finished(o.script, o.start, o.device) && ops.script == o.script
    requires ops.tick == Exit(o.script, o.start) + 1
    requires ops.device == RowOutside(o.script, o.start, Exit(o.script, o.start) + 1)
    requires before.stages == ALL_STAGES[..6] && !before.postMaintenancePresence
    modifies ops, ops.store
    ensures ops.Valid() && ops.Quiet()
    ensures ops.trace == old(ops.trace) && ops.maintenanceOwned == old(ops.maintenanceOwned)
    ensures var complete := Complete(o.script, o.start, o.device);
            var presence := Presence(o.script, o.start, o.device);
            result == if complete then
                        before.(stages := ALL_STAGES, postMaintenancePresence := presence, failure := false,
                                status := if before.maintenanceRecovery && presence then PROVEN else NOT_PROVEN)
                      else before.(postMaintenancePresence := presence)
  {
    hide RealOperations.Valid, Commands, OwnIndices, Own, RowAfter, Finished, ChecksTurns, ChecksPass;
    hide Presence, Complete, RowOutside, Exit, ObservationEnds, ObservationTurns, ObservationOf;
    OutsideFacts(o);
    result := before;
    var observation := ops.Observe(AFTER);
    if observation.None? { return; }
    if ValidObservation(observation.value, false) { result := result.(postMaintenancePresence := true); }
    var ok := ops.FinalVerify();
    if !ok { return; }
    var proven := result.maintenanceRecovery && result.postMaintenancePresence;
    result := result.(stages := ALL_STAGES[..7], failure := false, status := if proven then PROVEN else NOT_PROVEN);
    assert ALL_STAGES[..7] == ALL_STAGES;
  }

  /** The try block after the lock was handed over. */
  method WorkUnderLock(ops: RealOperations, ghost o: Opening, before: WindowResult)
    returns (result: WindowResult, finished: bool)
    requires ops.Valid() && !ops.maintenanceOwned && o.Handed().Some? && ops.script == o.script
    requires ops.tick == o.start + 3 && ops.device == RowAfter(o.script, o.device, o.start, o.start + 3)
    requires before == UNFINISHED.(stages := ALL_STAGES[..2], fencing := Some(o.Handed().value.fencing))
    modifies ops, ops.store
    ensures ops.Valid() && ops.Grows() && Own(ops.history) == Own(old(ops.history)) + o.TryWrites()
    ensures ops.trace == old(ops.trace) + o.TryActs()
    ensures result == o.Tried()
    ensures ops.maintenanceOwned == o.NeedsCleanup() && (finished ==> !o.NeedsCleanup())
    ensures o.NeedsCleanup() ==>
              ops.tick == CleanupTurn(o.script, o.start) && ops.device == CleanupRow(o.script, o.start)
    ensures o.Prepared() && !o.Owned() ==> ops.tick == o.start + 8 && ops.device == DURING
  {
    hide RealOperations.Valid, Commands, OwnIndices, Own, RowAfter, RowInside, RowOutside, Exit, FinishLands;
    hide Preflighted, Entered, Installed, Finished, Complete, Ended, Recovery, Presence, CleanupTurn, CleanupRow;
    hide Opening.Prepared, Opening.Owned, Opening.Handed, Opening.Tried, Opening.TriesFinish;
    var ok;
    finished := false;
    TriedFacts(o);
    CourseFacts(o);
    result, ok := EnterMaintenance(ops, o, before);
    if ok {
      result, finished := FinishStage(ops, o, result);
      if finished { result := ProveStage(ops, o, result); }
    }
  }

  /** The try block. A raised exception is an early return. */
  method RunStages(ops: RealOperations, ghost o: Opening)
    returns (result: WindowResult, lock: Option<Lock>, finished: bool)
    requires ops.Valid() && ops.trace == [] && !ops.maintenanceOwned && o == ops.Opens()
    modifies ops, ops.store
    ensures ops.Valid() && ops.Grows() && Own(ops.history) == Own(old(ops.history)) + o.TryWrites()
    ensures lock == o.Handed() && AcquireSent(o.Sent(), o.script(o.start + 2), [], ops.lockLog)
    ensures ops.trace == o.LockActs() + o.TryActs()
    ensures result == o.Tried()
    ensures ops.maintenanceOwned == o.NeedsCleanup() && (finished ==> !o.NeedsCleanup())
    ensures o.NeedsCleanup() ==>
              ops.tick == CleanupTurn(o.script, o.start) && ops.device == CleanupRow(o.script, o.start)
    ensures o.Prepared() && !o.Owned() ==> ops.tick == o.start + 8 && ops.device == DURING
  {
    hide RealOperations.Valid, Commands, OwnIndices, Own, RowAfter, Sent, AcquireSent, CleanupTurn, CleanupRow;
    hide Installed, Entered, Preflighted, Finished, Complete, Recovery, Presence;
    hide Opening.Handed, Opening.Sent, Opening.LockActs, Opening.Tried, Opening.TryActs, Opening.TryWrites,
      Opening.NeedsCleanup, Opening.Prepared, Opening.Owned;
    ops.NothingOwn();
    TriedFacts(o);
    CourseFacts(o);
    finished := false;
    result, lock := TakeLock(ops, o);
    if lock.None? {
      NoActsWithoutLock(o);
      return;
    }
    ghost var log := ops.lockLog;
    ops.SentIsOwned();
    result, finished := WorkUnderLock(ops, o, result);
    NoLockInTry(o);
    SentNothingMore(o.LockActs(), o.TryActs());
    ops.SentIsOwned();
    AcquireStays(o.Sent(), o.script(o.start + 2), log, ops.lockLog);
  }

  /** The first half of the finally block. */
  method CleanUp(ops: RealOperations, ghost o: Opening, lock: Option<Lock>, finished: bool, before: WindowResult)
    returns (result: WindowResult)
    requires ops.Valid() && ops.script == o.script && ops.maintenanceOwned == o.NeedsCleanup()
    requires lock == o.Handed() && (finished ==> !o.NeedsCleanup()) && before == o.Tried()
    requires o.NeedsCleanup() ==>
               ops.tick == CleanupTurn(o.script, o.start) && ops.device == CleanupRow(o.script, o.start)
    modifies ops, ops.store
    ensures ops.Valid() && ops.Grows() && Own(ops.history) == Own(old(ops.history)) + o.CleanupWrites()
    ensures ops.trace == old(ops.trace) + o.CleanupActs()
    ensures OwnIndices(ops.lockLog) == OwnIndices(old(ops.lockLog))
    ensures !o.NeedsCleanup() ==> ops.tick == old(ops.tick) && ops.device == old(ops.device)
    ensures result == o.Cleaned()
  {
    hide RealOperations.Valid, OwnIndices, Own, Sent, FinishLands, CleanupPasses, FinishSeen, CleanupTurn, CleanupRow;
    hide Opening.Owned, Opening.Handed, Ended, Opening.Tried;
    result := before;
    CleanupIsLocked(o);
    if lock.Some? && ops.maintenanceOwned && !finished {
      ops.SentIsOwned();
      SentNothingMore(ops.trace, o.CleanupActs());
      var ok := ops.CleanupMaintenance();
      if !ok {
        result := result.(status := FAILED, cleanupFailure := true);
      }
      ops.SentIsOwned();
    }
  }

  /** The last turn brought the acknowledgement of a release, the last command of the log. */
  ghost predicate LastAnswered(ops: RealOperations)
    reads ops, ops.store
  {
    ops.tick > 0 && ReleaseAnswer(ops.store.hash, ops.script(ops.tick - 1), ops.lockLog).Some?
  }

  /** The second half of the finally block, for a lock that was handed over. */
  method ReleaseOnce(ops: RealOperations, lock: Lock, before: WindowResult, ghost sent: seq<Cmd>, ghost acquire: Turn)
    returns (result: WindowResult)
    requires ops.Valid() && AcquireSent(Some(sent), acquire, [], ops.lockLog) && !Taken(ops.store.hash, sent)
    requires lock.fencing == Counter(Run(ops.store.hash, EMPTY, sent), SERIAL)
    modifies ops, ops.store
    ensures ops.Valid() && ops.Waited(1)
    ensures AcquireEntry(sent, acquire, ops.lockLog)
    ensures ReleaseSent(lock, ops.script(old(ops.tick)), [|sent|], ops.lockLog)
    ensures ops.trace == old(ops.trace) + ReleaseActs(old(ops.tick), ops.script(old(ops.tick)).fails, ops.lockLog)
    ensures LastAnswered(ops) ==> Exclusive(ops.store.hash, Commands(ops.lockLog), lock.fencing)
    ensures result == if LastAnswered(ops) then before.(lockReleased := Some(true))
                      else before.(status := FAILED, lockReleased := Some(false), releaseFailure := true)
  {
    hide RealOperations.Valid, Run, OwnIndices, Exclusive, Commands, Taken, Counter, RowAfter, Own, ReleaseActs;
    ghost var log := ops.lockLog;
    var released := ops.ReleaseLock(lock);
    PrefixCommands(log, ops.lockLog);
    if released.None? || released.value != lock.fencing {
      return before.(status := FAILED, lockReleased := Some(false), releaseFailure := true);
    }
    ReleasedIsExclusive(ops.store.hash, sent, acquire, lock, ops.script(old(ops.tick)), ops.lockLog);
    return before.(lockReleased := Some(true));
  }

  /**
   * The whole window, whatever fails and whatever others do: its result, its trace, its lock commands and its
   * changes of the device are those that its opening determines.
   */
  method ExecuteWindow(ops: RealOperations) returns (result: WindowResult)
    requires ops.Valid() && ops.trace == [] && !ops.maintenanceOwned
    modifies ops, ops.store
    ensures ops.Valid() && ops.Grows() && OwnWrites(ops.history)
    ensures FINISH in ops.history ==> PrepareAcknowledged in ops.trace
    ensures var o := old(ops.Opens());
            && LockStory(o, ops.tick, ops.lockLog) && (o.Handed().Some? ==> ops.tick > old(ops.tick))
            && Own(ops.history) == Own(old(ops.history)) + o.Writes()
            && ops.trace == o.Acts(ops.tick, ops.lockLog) && result == o.Result(LastAnswered(ops))
    ensures result.lockReleased == Some(true) ==>
              result.fencing.Some? && Exclusive(ops.store.hash, Commands(ops.lockLog), result.fencing.value)
    ensures var o := old(ops.Opens());
            o.Prepared() && !o.Owned() ==> ops.device == RowAfter(ops.script, DURING, old(ops.tick) + 8, ops.tick)
  {
    hide RealOperations.Valid, Own, OwnWrites, Commands, OwnIndices, RowAfter, CleanupTurn, CleanupRow, AcquireSent;
    hide AcquireEntry, ReleaseSent, Taken, Counter, Run, LastAnswered, Exclusive, Ended, ReleaseActs;
    hide Opening.Handed, Opening.Sent, Opening.Tried, Opening.LockActs, Opening.TryActs, Opening.TryWrites,
      Opening.CleanupWrites, Opening.Owned, Opening.Prepared;
    ghost var o := ops.Opens();
    TriedFencing(o);
    var tried, lock, finished := RunStages(ops, o);
    ghost var log := ops.lockLog;
    result := CleanUp(ops, o, lock, finished, tried);
    AcquireStays(o.Sent(), o.script(o.start + 2), log, ops.lockLog);
    CleanupIsLocked(o);
    if lock.Some? {
      HandedFacts(o);
      RowOne(o.script, DURING, ops.tick);
      result := ReleaseOnce(ops, lock.value, result, o.Sent().value, o.script(o.start + 2));
    } else {
      NoActsWithoutLock(o);
    }
    ops.FinishNeedsPrepare();
  }

  /**
   * A window in which nothing breaks passes every stage, whatever ran on the device and the store before it, and is
   * PROVEN exactly when the first turns of its two observations count enough.
   */
  method UndisturbedWindow(ops: RealOperations) returns (result: WindowResult)
    requires ops.Valid() && ops.trace == [] && !ops.maintenanceOwned
    requires Undisturbed(ops.script, ops.tick) && ops.device == BEFORE
    requires !Taken(ops.store.hash, Commands(ops.lockLog))
    modifies ops, ops.store
    ensures result.stages == ALL_STAGES
    ensures result.status == if Counted(ops.script, old(ops.tick)) then PROVEN else NOT_PROVEN
  {
    hide RealOperations.Valid, Run, Taken, Commands, Own, LockStory, Exclusive, Undisturbed, RowAfter, ReleaseAnswer;
    hide Counted, Others, Opening.Result, Opening.Acts, Opening.Writes, Opening.Prepared, Opening.Handed;
    ghost var o := ops.Opens();
    ops.OthersScripted();
    ops.NothingOwn();
    OthersAreAll(ops.lockLog);
    result := ExecuteWindow(ops);
    ops.OthersScripted();
    UndisturbedResult(o, ops.past, ops.tick, ops.lockLog);
  }

  /** A window that ends NOT_PROVEN for one unhealthy sample of its first observation. */
  method UnhealthyExample(hash: Hash) returns (ops: RealOperations, result: WindowResult)
    ensures ops.script(12).heartbeats >= 3 && ops.script(12).deferrals >= 2 && !ops.script(12).healthy
    ensures result.status == NOT_PROVEN && result.stages == ALL_STAGES
  {
    hide RealOperations.Valid, Run, Taken, Commands, Undisturbed, Counted;
    var store := new DeviceLockStore(hash);
    NothingRun(hash);
    UnhealthyIsUndisturbed();
    ops := new RealOperations(store, [], BEFORE, Unhealthy());
    result := UndisturbedWindow(ops);
  }

  /** A window whose acquire loses its answer: the lock is granted, never released, and held at the end. */
  method LostAnswerExample(hash: Hash) returns (ops: RealOperations, result: WindowResult)
    ensures ops.store.hash == hash && result.status == FAILED && result.fencing.None?
    ensures OwnGrant(hash, ops.lockLog, 0) && !Attempted(ops.trace)
    ensures Live(Run(hash, EMPTY, Commands(ops.lockLog)), SERIAL, 1)
  {
    hide RealOperations.Consistent, Run, OwnIndices, Commands, LockStory, Live, Others, Exclusive, Own, Opening.Handed;
    hide ScriptedCommands, ScriptedRequests, OwnGrant, Attempted, Losing, Opening.Sent, Opening.Acts;
    var store := new DeviceLockStore(hash);
    NothingRun(hash);
    ops := new RealOperations(store, [], BEFORE, Losing(2));
    result := ExecuteWindow(ops);
    NobodyElse(2, ops.tick);
    LosingLock(hash, 2);
    LostAcquire(hash, ops.tick, ops.lockLog);
  }

  /**
   * A window whose prepare loses its answer: the device stays in maintenance, nothing is done to end it, and no
   * cleanup failure is reported.
   */
  method LostPrepareExample(hash: Hash) returns (ops: RealOperations, result: WindowResult)
    ensures ops.device == DURING && Own(ops.history) == [PREPARE]
    ensures !Undertaken(ops.trace) && PrepareAcknowledged !in ops.trace
    ensures result.status == FAILED && result.stages == ALL_STAGES[..3] && !result.cleanupFailure
  {
    hide RealOperations.Consistent, Run, OwnIndices, Commands, LockStory, Exclusive, Opening.Handed, Opening.Result;
    hide ScriptedCommands, ScriptedRequests, Losing, Opening.Acts, Opening.Writes, Opening.Prepared, Opening.Owned;
    hide Undertaken, RowAfter;
    var store := new DeviceLockStore(hash);
    NothingRun(hash);
    ops := new RealOperations(store, [], BEFORE, Losing(7));
    result := ExecuteWindow(ops);
    ghost var o := LosingOpening(hash, 7);
    LostPrepare(hash);
    LostPrepareStays(o, LastAnswered(ops));
    PrepareIsEndedIffAnswerKept(o, ops.tick, ops.lockLog);
    LosingRow(7, DURING, 8, ops.tick);
  }
}
