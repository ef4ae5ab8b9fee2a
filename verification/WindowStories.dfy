/**
 * What a whole window does to the lock store, to the device and to its own trace, and what it reports, as decided by
 * the situation it opens in.
 */
module WindowStories {
  import opened Common
  import opened DeviceLock
  import opened DeviceLockRuns
  import opened WindowRecords
  import opened WindowCourse

  datatype Stage =
    | CandidateValidated | DeviceLockAcquired | LockedPreflightPassed | MaintenanceEntered
    | V6Installed | MaintenanceExited | FinalGatesPassed

  const ALL_STAGES := [CandidateValidated, DeviceLockAcquired, LockedPreflightPassed, MaintenanceEntered,
                       V6Installed, MaintenanceExited, FinalGatesPassed]

  datatype Status = PROVEN | NOT_PROVEN | FAILED

  datatype WindowResult = WindowResult(
    status: Status, stages: seq<Stage>, fencing: Option<int>, maintenanceRecovery: bool,
    postMaintenancePresence: bool, failure: bool, cleanupFailure: bool, lockReleased: Option<bool>,
    releaseFailure: bool)

  const UNFINISHED := WindowResult(FAILED, [], None, false, false, true, false, None, false)

  /** The commands that the lock store has seen, the turns to come from `start` on, and the device row. */
  datatype Opening = Opening(hash: Hash, before: seq<Cmd>, script: Script, start: nat, device: Device)
  {
    /** The commands before the window's acquire, if it is sent: the first turn is that of the candidate checks. */
    function Sent(): Option<seq<Cmd>> {
      if !Intact(script(start)) then None
      else BeforeAcquire(hash, before + script(start).lockCommands, script(start + 1), script(start + 2))
    }

    /** The lock that the window is given. */
    function Handed(): Option<Lock> {
      if !Intact(script(start)) then None
      else WindowRecords.Handed(hash, before + script(start).lockCommands, script(start + 1), script(start + 2))
    }

    /** The window's prepare takes effect. */
    predicate Prepared() {
      Handed().Some? && Prepares(script, start, device)
    }

    /** And its answer arrives. */
    predicate Owned() {
      Handed().Some? && Owns(script, start, device)
    }

    /** The try block ends without the maintenance being ended. */
    predicate NeedsCleanup() {
      Owned() && !Ended(script, start, device)
    }

    /** The try block reaches `finish-owned` in turn start + 15. */
    predicate TriesFinish() {
      Owned() && Installed(script, start, device) && ObservationEnds(script, start + 12)
    }

    /** The accepted changes of the try block. */
    function TryWrites(): seq<Write> {
      (if Prepared() then [PREPARE] else [])
      + (if TriesFinish() && FinishLands(script, start + 15, RowInside(script, start, start + 15)) then [FINISH]
         else [])
    }

    function CleanupWrites(): seq<Write> {
      if NeedsCleanup() && FinishLands(script, CleanupTurn(script, start), CleanupRow(script, start)) then [FINISH]
      else []
    }

    /** The accepted changes of the window. */
    function Writes(): seq<Write> {
      TryWrites() + CleanupWrites()
    }

    // ----- the trace -----

    function LockActs(): seq<Act> {
      (if Sent().Some? then [LockSent(|Sent().value|)] else []) + (if Handed().Some? then [LockReturned] else [])
    }

    function TryActs(): seq<Act> {
      (if Owned() then [PrepareAcknowledged] else [])
      + (if Owned() && Ended(script, start, device) then [SawFinished(AFTER)] else [])
    }

    function CleanupActs(): seq<Act> {
      if NeedsCleanup() then CleanupActsAt(script, CleanupTurn(script, start), CleanupRow(script, start)) else []
    }

    /** The whole trace, when the window ends at this turn with this log. */
    function Acts(end: nat, log: seq<Entry>): seq<Act> {
      LockActs() + TryActs() + CleanupActs()
      + (if Handed().Some? && end > 0 then ReleaseActs(end - 1, script(end - 1).fails, log) else [])
    }

    // ----- the result -----

    /** The result after the try block. */
    function Tried(): WindowResult {
      var locked := Handed().Some?;
      var n := StagesPassed(locked, script, start, device);
      var recovery, presence := locked && Recovery(script, start, device), locked && Presence(script, start, device);
      WindowResult(if n < 7 then FAILED else if recovery && presence then PROVEN else NOT_PROVEN,
                   ALL_STAGES[..n], if locked then Some(Handed().value.fencing) else None, recovery, presence, n < 7,
                   false, None, false)
    }

    function Cleaned(): WindowResult {
      if NeedsCleanup() && !CleanupPasses(script, CleanupTurn(script, start), CleanupRow(script, start)) then
        Tried().(status := FAILED, cleanupFailure := true)
      else Tried()
    }

    /** The final result, given whether the acknowledgement of the release came through. */
    function Result(answered: bool): WindowResult {
      if Handed().None? then Cleaned()
      else if answered then Cleaned().(lockReleased := Some(true))
      else Cleaned().(status := FAILED, lockReleased := Some(false), releaseFailure := true)
    }
  }

  function CleanupActsAt(script: Script, turn: nat, row: Device): seq<Act> {
    [CleanupStarted(turn, row)] + (if FinishSeen(script, turn, row) then [SawFinished(AFTER)] else [])
  }

  function ReleaseActs(turn: nat, fails: bool, log: seq<Entry>): seq<Act> {
    [ReleaseStarted(turn)] + (if fails || log == [] then [] else [LockSent(|log| - 1)])
  }

  // ----- the result -----

  /**
   * PROVEN means exactly that the lock was handed over, every stage was passed, the counts of both observation turns
   * suffice with the gates open, and the release was acknowledged.
   */
  lemma ProvenIff(o: Opening, answered: bool)
    ensures o.Result(answered).status == PROVEN <==>
              && o.Handed().Some? && Complete(o.script, o.start, o.device)
              && Recovery(o.script, o.start, o.device) && Presence(o.script, o.start, o.device) && answered
  {
    hide Complete, Recovery, Presence, Owns, CleanupPasses, Ended, Finished, Installed, Entered, Preflighted;
    CompleteEnds(o);
  }

  lemma NotProvenIff(o: Opening, answered: bool)
    ensures o.Result(answered).status == NOT_PROVEN <==>
              && o.Handed().Some? && Complete(o.script, o.start, o.device)
              && !(Recovery(o.script, o.start, o.device) && Presence(o.script, o.start, o.device)) && answered
  {
    hide Complete, Recovery, Presence, Owns, CleanupPasses, Ended, Finished, Installed, Entered, Preflighted;
    CompleteEnds(o);
  }

  lemma ResultStages(o: Opening, answered: bool)
    ensures o.Result(answered).stages == ALL_STAGES <==>
              o.Handed().Some? && Complete(o.script, o.start, o.device)
  {
    hide Opening.Handed, Complete, Recovery, Presence, CleanupPasses, Opening.NeedsCleanup, Finished, Installed,
      Entered, Preflighted;
  }

  lemma CompleteEnds(o: Opening)
    ensures Complete(o.script, o.start, o.device) ==> Ended(o.script, o.start, o.device)
  {
  }

  /** The result after the try block, by the last stage passed. */
  lemma TriedFacts(o: Opening)
    ensures var locked := UNFINISHED.(fencing := if o.Handed().Some? then Some(o.Handed().value.fencing) else None);
            var script, start, d := o.script, o.start, o.device;
            var recovery, presence := Recovery(script, start, d), Presence(script, start, d);
            o.Tried() ==
              if o.Handed().None? then locked.(stages := ALL_STAGES[..if Intact(script(start)) then 1 else 0])
              else if !Installed(script, start, d) then
                locked.(stages := ALL_STAGES[..if Entered(script, start, d) then 4
                                               else if Preflighted(script, start, d) then 3 else 2])
              else if !Finished(script, start, d) then
                locked.(stages := ALL_STAGES[..5], maintenanceRecovery := recovery)
              else if !Complete(script, start, d) then
                locked.(stages := ALL_STAGES[..6], maintenanceRecovery := recovery,
                        postMaintenancePresence := presence)
              else locked.(stages := ALL_STAGES, maintenanceRecovery := recovery, postMaintenancePresence := presence,
                           failure := false, status := if recovery && presence then PROVEN else NOT_PROVEN)
  {
    hide Opening.Handed, ObservationEnds, ChecksPass, FinishSeen, Owns, Exit, RowInside, RowOutside, ObservationOf,
      ValidObservation;
    assert ALL_STAGES[..7] == ALL_STAGES;
  }

  // ----- the lock -----

  /**
   * Everything that the window does to the lock: whether an acquire is sent and where; no release unless the lock
   * was handed over; then one attempt, in the last turn, and unless that turn fails exactly one release of exactly
   * this lock, as the last entry of the log.
   */
  ghost predicate LockStory(o: Opening, end: nat, log: seq<Entry>) {
    match o.Handed()
    case None => AcquireSent(o.Sent(), o.script(o.start + 2), [], log)
    case Some(lock) =>
      && o.Sent().Some? && AcquireEntry(o.Sent().value, o.script(o.start + 2), log) && end > 0
      && ReleaseSent(lock, o.script(end - 1), [|o.Sent().value|], log)
  }

  /** The acquire stays where it is in the log while the window sends nothing more. */
  lemma AcquireStays(sent: Option<seq<Cmd>>, acquire: Turn, log: seq<Entry>, log': seq<Entry>)
    requires AcquireSent(sent, acquire, [], log) && log <= log' && OwnIndices(log') == OwnIndices(log)
    ensures AcquireSent(sent, acquire, [], log')
  {
    hide OwnIndices;
    PrefixCommands(log, log');
  }

  lemma SentNothingMore(trace: seq<Act>, more: seq<Act>)
    requires forall e :: e in more ==> !e.LockSent?
    ensures Sent(trace + more) == Sent(trace)
  {
    SentConcat(trace, more);
    NothingSent(more);
  }

  lemma EmptySent()
    ensures Sent([]) == []
  {
  }

  lemma TriedFencing(o: Opening)
    ensures o.Tried().fencing == (if o.Handed().Some? then Some(o.Handed().value.fencing) else None)
    ensures o.Tried().lockReleased.None?
  {
    hide Opening.Handed, StagesPassed, Recovery, Presence;
  }

  lemma CleanupIsLocked(o: Opening)
    ensures o.NeedsCleanup() ==> o.Owned() && o.Handed().Some?
    ensures o.Owned() ==> o.Prepared()
    ensures o.Prepared() ==> o.Handed().Some?
  {
    hide Prepares, Ended;
  }

  lemma NoActsWithoutLock(o: Opening)
    requires o.Handed().None?
    ensures o.TryActs() == [] && o.CleanupActs() == [] && o.TryWrites() == [] && o.CleanupWrites() == []
    ensures !o.NeedsCleanup() && !o.Prepared()
  {
  }

  lemma NoLockInTry(o: Opening)
    ensures forall e :: e in o.TryActs() ==> !e.LockSent?
  {
    hide Opening.Owned, Ended;
  }

  lemma CourseFacts(o: Opening)
    ensures Finished(o.script, o.start, o.device) ==> Ended(o.script, o.start, o.device)
    ensures Ended(o.script, o.start, o.device) ==> Installed(o.script, o.start, o.device)
    ensures o.TriesFinish() ==> Installed(o.script, o.start, o.device)
    ensures o.Handed().Some? && Installed(o.script, o.start, o.device) ==> o.Owned()
    ensures o.NeedsCleanup() ==> o.Handed().Some?
    ensures o.Owned() ==> o.Prepared()
    ensures o.Prepared() ==> o.Handed().Some?
  {
    hide Opening.Handed, Exit, FinishSeen, ChecksPass, Prepares, ObservationEnds;
  }

  lemma HandedFacts(o: Opening)
    requires o.Handed().Some?
    ensures o.Sent().Some? && !Taken(o.hash, o.Sent().value)
    ensures o.Handed().value.fencing == Counter(Run(o.hash, EMPTY, o.Sent().value), SERIAL)
  {
    hide Run, Counter, Taken;
  }

  // ----- the course of a window, step by step -----

  lemma OpensUnlocked(o: Opening, ok: bool)
    requires ok == Intact(o.script(o.start))
    ensures !ok ==> o.Sent() == None && o.Handed() == None && o.LockActs() == []
    ensures ok ==>
              var seen := o.before + o.script(o.start).lockCommands;
              && o.Sent() == BeforeAcquire(o.hash, seen, o.script(o.start + 1), o.script(o.start + 2))
              && o.Handed() == Handed(o.hash, seen, o.script(o.start + 1), o.script(o.start + 2))
  {
    hide BeforeAcquire, Handed;
  }

  lemma NothingSentYet(o: Opening, log: seq<Entry>)
    requires OwnIndices(log) == []
    ensures o.Sent().None? ==> AcquireSent(o.Sent(), o.script(o.start + 2), [], log)
  {
    hide OwnIndices;
  }

  lemma PassedChecks(script: Script, s: nat, d: Device, expected: Device)
    ensures ChecksPass(script, s, d, expected) ==> ChecksTurns(script, s, d, expected) == 3
  {
  }

  /** The way to the install, step by step. */
  lemma EnterFacts(o: Opening)
    requires o.Handed().Some?
    ensures var script, start := o.script, o.start;
            var early := RowAfter(script, o.device, start, start + 3);
            var late := RowAfter(script, o.device, start, start + 6);
            && Preflighted(script, start, o.device) == ChecksPass(script, start + 3, early, BEFORE)
            && RowAfter(script, early, start + 3, start + 6) == late
            && o.Prepared() == (Preflighted(script, start, o.device) && PrepareLands(script, start + 6, late))
            && o.Owned() == (o.Prepared() && !script(start + 7).lost)
  {
    hide RowAfter, PrepareLands, ChecksPass;
    RowCompose(o.script, o.device, o.start, o.start + 3, o.start + 6);
  }

  lemma InsideFacts(o: Opening)
    requires o.Handed().Some?
    ensures var script, start := o.script, o.start;
            var checked := ChecksPass(script, start + 8, DURING, DURING);
            var turns := ChecksTurns(script, start + 8, DURING, DURING);
            && Entered(script, start, o.device) == (o.Owned() && checked)
            && Installed(script, start, o.device) == (o.Owned() && checked && Intact(script(start + 11)))
            && (!checked ==> CleanupTurn(script, start) == start + 8 + turns
                             && CleanupRow(script, start) == RowAfter(script, DURING, start + 8, start + 8 + turns))
            && (checked && !Intact(script(start + 11)) ==>
                  CleanupTurn(script, start) == start + 12
                  && CleanupRow(script, start) == RowInside(script, start, start + 12))
            && (checked ==> turns == 3)
            && RowAfter(script, RowAfter(script, DURING, start + 8, start + 11), start + 11, start + 12)
               == RowInside(script, start, start + 12)
  {
    hide RowAfter, Owns, Exit;
    RowCompose(o.script, DURING, o.start + 8, o.start + 11, o.start + 12);
  }

  lemma ObservationFacts(o: Opening)
    requires Installed(o.script, o.start, o.device)
    ensures var script, start := o.script, o.start;
            var ends, turns := ObservationEnds(script, start + 12), ObservationTurns(script, start + 12);
            var row := RowInside(script, start, start + 12);
            && Recovery(script, start, o.device)
               == (ends && ValidObservation(ObservationOf(script, start + 12, row, DURING), true))
            && (ends ==> turns == 3)
            && RowAfter(script, row, start + 12, start + 12 + turns) == RowInside(script, start, start + 12 + turns)
            && (!ends ==> CleanupTurn(script, start) == start + 12 + turns
                          && CleanupRow(script, start) == RowInside(script, start, start + 12 + turns))
            && (!ends ==> !Ended(script, start, o.device) && !Finished(script, start, o.device))
  {
    hide RowAfter, Exit, ObservationOf;
    RowCompose(o.script, DURING, o.start + 8, o.start + 12, o.start + 12 + ObservationTurns(o.script, o.start + 12));
  }

  lemma FinishFacts(o: Opening)
    requires o.Owned() && Installed(o.script, o.start, o.device) && ObservationEnds(o.script, o.start + 12)
    ensures var script, start, exit := o.script, o.start, Exit(o.script, o.start);
            var row := RowInside(script, start, start + 15);
            && o.TriesFinish() && exit == start + 15 + FinishTurns(script, start + 15, row)
            && Ended(script, start, o.device) == (FinishSeen(script, start + 15, row) && script(exit - 1).idle)
            && Finished(script, start, o.device) == (Ended(script, start, o.device) && Intact(script(exit)))
            && CleanupTurn(script, start) == exit && CleanupRow(script, start) == FinishRow(script, start + 15, row)
            && RowOutside(script, start, exit + 1) == RowAfter(script, AFTER, exit, exit + 1)
  {
    hide RowAfter, FinishTurns, FinishSeen, FinishRow, RowInside, Opening.Owned;
    assert Entered(o.script, o.start, o.device);
  }

  lemma OutsideFacts(o: Opening)
    requires Finished(o.script, o.start, o.device)
    ensures var script, start, s := o.script, o.start, Exit(o.script, o.start) + 1;
            var row, later := RowOutside(script, start, s), RowOutside(script, start, s + 3);
            var ends := ObservationEnds(script, s);
            && Presence(script, start, o.device)
               == (ends && ValidObservation(ObservationOf(script, s, row, AFTER), false))
            && Complete(script, start, o.device) == (ends && ChecksPass(script, s + 3, later, AFTER))
            && RowAfter(script, row, s, s + 3) == later && (ends ==> ObservationTurns(script, s) == 3)
  {
    hide RowAfter, Exit, ObservationOf, ChecksPass, Finished;
    ghost var exit := Exit(o.script, o.start);
    RowCompose(o.script, AFTER, exit, exit + 1, exit + 4);
  }

  // ----- the lock over a whole window -----

  /** Between acquire and release of token f, no other acquire of the serial succeeded. */
  ghost predicate Exclusive(hash: Hash, cmds: seq<Cmd>, f: int) {
    exists i, j :: ExclusiveBetween(hash, cmds, f, i, j)
  }

  ghost predicate ExclusiveBetween(hash: Hash, cmds: seq<Cmd>, f: int, i: int, j: int) {
    && 0 <= i < j < |cmds|
    && cmds[i].Acquire? && cmds[i].serial == SERIAL && ReplyAt(hash, EMPTY, cmds, i).Granted?
    && ReplyAt(hash, EMPTY, cmds, i).grantedFencing == f
    && cmds[j].Release? && Presents(cmds[j], SERIAL, f) && !ReplyAt(hash, EMPTY, cmds, j).Refused?
    && forall k :: i < k < j && cmds[k].Acquire? && cmds[k].serial == SERIAL ==> ReplyAt(hash, EMPTY, cmds, k).Refused?
  }

  lemma ReplyToAcquire(hash: Hash, sent: seq<Cmd>, acquire: Turn, log: seq<Entry>)
    requires AcquireEntry(sent, acquire, log)
    ensures var reply := ReplyAt(hash, EMPTY, Commands(log), |sent|);
            && (reply.Granted? <==> !Taken(hash, sent))
            && (reply.Granted? ==> reply.grantedFencing == Counter(Run(hash, EMPTY, sent), SERIAL))
  {
    hide Run, Step, Taken, Counter;
    AcquireReply(hash, sent, acquire);
  }

  /** A lock that was granted and whose release was acknowledged was held by nobody else in between. */
  lemma ReleasedIsExclusive(hash: Hash, sent: seq<Cmd>, acquire: Turn, lock: Lock, t: Turn, log: seq<Entry>)
    requires AcquireEntry(sent, acquire, log) && !Taken(hash, sent)
    requires lock.fencing == Counter(Run(hash, EMPTY, sent), SERIAL)
    requires ReleaseSent(lock, t, [|sent|], log) && ReleaseAnswer(hash, t, log).Some?
    ensures Exclusive(hash, Commands(log), lock.fencing)
  {
    hide Run, Step, Taken, Counter, OwnIndices;
    var cmds, i, j := Commands(log), |sent|, |log| - 1;
    ReplyToAcquire(hash, sent, acquire, log);
    GrantBeforeUse(hash, cmds, i, j);
    forall k | i < k < j && cmds[k].Acquire? && cmds[k].serial == SERIAL
      ensures ReplyAt(hash, EMPTY, cmds, k).Refused?
    {
      NoAcquireBetween(hash, cmds, SERIAL, i, k, j);
    }
    assert ExclusiveBetween(hash, cmds, lock.fencing, i, j);
  }

  /** An own acquire that was granted. */
  ghost predicate OwnGrant(hash: Hash, log: seq<Entry>, i: nat) {
    && i < |log| && log[i].ours && log[i].cmd.Acquire?
    && ReplyAt(hash, EMPTY, Commands(log), i).Granted?
  }

  ghost predicate Attempted(trace: seq<Act>) {
    exists e :: e in trace && e.ReleaseStarted?
  }

  /** The only own acquire is the one that the turns send, and an own release means that the lock was handed over. */
  lemma OwnCommandsOfStory(o: Opening, end: nat, log: seq<Entry>, i: nat)
    requires LockStory(o, end, log) && i < |log| && log[i].ours
    ensures || (o.Sent().Some? && i == |o.Sent().value| && log[i].cmd == AcquireOf(o.script(o.start + 2)))
            || (o.Handed().Some? && end > 0 && i == |log| - 1
                && log[i].cmd == ReleaseOf(o.Handed().value, o.script(end - 1)))
  {
    hide Opening.Sent, Opening.Handed, OwnIndices, Commands;
    OwnIndicesAreExact(log, i);
  }

  /** The release attempt is noted exactly when the lock was handed over. */
  lemma AttemptIffHanded(o: Opening, end: nat, log: seq<Entry>)
    requires LockStory(o, end, log)
    ensures Attempted(o.Acts(end, log)) <==> o.Handed().Some?
  {
    hide Opening.Sent, Opening.Handed, OwnIndices, Commands, Opening.NeedsCleanup, Opening.Owned, Ended, FinishSeen,
      CleanupTurn, CleanupRow;
    if o.Handed().Some? {
      var last := ReleaseActs(end - 1, o.script(end - 1).fails, log);
      assert last[0] in o.Acts(end, log);
    }
  }

  /**
   * A granted acquire of the window gets a release attempt exactly when its turn neither loses the answer nor
   * fails to save the private record of it.
   */
  lemma AttemptIffAnswerKept(o: Opening, end: nat, log: seq<Entry>, i: nat)
    requires LockStory(o, end, log) && OwnGrant(o.hash, log, i)
    ensures Attempted(o.Acts(end, log)) <==> !o.script(o.start + 2).lost && !o.script(o.start + 2).saveFails
  {
    hide OwnIndices, Commands, Run, Step, Taken, Counter, Opening.Acts, Attempted;
    AttemptIffHanded(o, end, log);
    OwnCommandsOfStory(o, end, log, i);
    ReplyToAcquire(o.hash, o.Sent().value, o.script(o.start + 2), log);
  }

  /**
   * Otherwise the lock stays held at the end of the window unless another actor released or broke it: the window
   * itself sends nothing after the acquire.
   */
  lemma MislaidLockStays(o: Opening, end: nat, log: seq<Entry>, i: nat)
    requires LockStory(o, end, log) && OwnGrant(o.hash, log, i)
    requires o.script(o.start + 2).lost || o.script(o.start + 2).saveFails
    ensures forall k :: i < k < |log| ==> !log[k].ours
    ensures Live(Run(o.hash, EMPTY, Commands(log)), SERIAL, ReplyAt(o.hash, EMPTY, Commands(log), i).grantedFencing)
            || exists k :: i < k < |log| && !log[k].ours && EndsToken(o.hash, Commands(log), i, k)
  {
    hide OwnIndices, Commands, Run, Step, Counter, Opening.Sent, Live, ReplyAt, Taken;
    OwnCommandsOfStory(o, end, log, i);
    assert o.Handed().None?;
    forall k | i < k < |log| ensures !log[k].ours {
      if log[k].ours { OwnCommandsOfStory(o, end, log, k); }
    }
    var cmds := Commands(log);
    if forall k :: i < k < |log| ==> !EndsToken(o.hash, cmds, i, k) {
      forall k | i < k < |cmds| && (cmds[k].Release? || cmds[k].BreakStale?)
                 && Presents(cmds[k], cmds[i].serial, ReplyAt(o.hash, EMPTY, cmds, i).grantedFencing)
        ensures ReplyAt(o.hash, EMPTY, cmds, k).Refused?
      {
        assert !EndsToken(o.hash, cmds, i, k);
      }
      LockStaysUntilEnded(o.hash, cmds, i, |cmds|);
      assert cmds[..|cmds|] == cmds;
    }
  }

  /** Command k released or broke the lock that acquire i was granted. */
  ghost predicate EndsToken(hash: Hash, cmds: seq<Cmd>, i: nat, k: nat)
    requires i < |cmds| && k < |cmds| && ReplyAt(hash, EMPTY, cmds, i).Granted?
  {
    && (cmds[k].Release? || cmds[k].BreakStale?)
    && Presents(cmds[k], cmds[i].serial, ReplyAt(hash, EMPTY, cmds, i).grantedFencing)
    && !ReplyAt(hash, EMPTY, cmds, k).Refused?
  }

  // ----- the maintenance over a whole window -----

  /** The window saw the maintenance ended, or set out to end it. */
  ghost predicate Undertaken(trace: seq<Act>) {
    exists e :: e in trace && (e.SawFinished? || e.CleanupStarted?)
  }

  lemma LockActsOnly(o: Opening, turn: nat, fails: bool, log: seq<Entry>)
    ensures forall e :: e in o.LockActs() || e in ReleaseActs(turn, fails, log) ==>
              e.LockSent? || e.LockReturned? || e.ReleaseStarted?
  {
    hide Opening.Sent, Opening.Handed;
  }

  lemma TryActsOnly(o: Opening)
    ensures PrepareAcknowledged in o.TryActs() <==> o.Owned()
    ensures SawFinished(AFTER) in o.TryActs() <==> o.Owned() && !o.NeedsCleanup()
    ensures forall e :: e in o.TryActs() ==> e == PrepareAcknowledged || e == SawFinished(AFTER)
  {
    hide Opening.Owned, Ended;
    if o.Owned() {
      assert o.TryActs()[0] == PrepareAcknowledged;
      if !o.NeedsCleanup() { assert o.TryActs()[1] == SawFinished(AFTER); }
    }
  }

  lemma CleanupActsOnly(o: Opening)
    ensures PrepareAcknowledged !in o.CleanupActs()
    ensures Undertaken(o.CleanupActs()) <==> o.NeedsCleanup()
    ensures SawFinished(AFTER) in o.CleanupActs() <==>
              o.NeedsCleanup() && FinishSeen(o.script, CleanupTurn(o.script, o.start), CleanupRow(o.script, o.start))
  {
    hide Opening.NeedsCleanup, FinishSeen, CleanupTurn, CleanupRow;
    if o.NeedsCleanup() { assert o.CleanupActs()[0].CleanupStarted?; }
    if o.NeedsCleanup() && FinishSeen(o.script, CleanupTurn(o.script, o.start), CleanupRow(o.script, o.start)) {
      assert o.CleanupActs()[1] == SawFinished(AFTER);
    }
  }

  lemma OwnedActs(o: Opening, end: nat, log: seq<Entry>)
    ensures PrepareAcknowledged in o.Acts(end, log) <==> o.Owned()
    ensures Undertaken(o.Acts(end, log)) <==> o.Owned()
    ensures SawFinished(AFTER) in o.Acts(end, log) <==>
              && o.Owned()
              && (o.NeedsCleanup() ==>
                    FinishSeen(o.script, CleanupTurn(o.script, o.start), CleanupRow(o.script, o.start)))
  {
    hide Opening.LockActs, Opening.TryActs, Opening.CleanupActs, ReleaseActs, Opening.Handed, FinishSeen, CleanupTurn,
      CleanupRow, Opening.NeedsCleanup, Opening.Owned;
    CleanupIsLocked(o);
    LockActsOnly(o, if end > 0 then end - 1 else 0, end > 0 && o.script(end - 1).fails, log);
    TryActsOnly(o);
    CleanupActsOnly(o);
  }

  /**
   * A prepare of the window that took effect is acknowledged, and the maintenance is seen ended or a cleanup started,
   * exactly when its turn does not lose the answer.
   */
  lemma PrepareIsEndedIffAnswerKept(o: Opening, end: nat, log: seq<Entry>)
    requires PREPARE in o.Writes()
    ensures PrepareAcknowledged in o.Acts(end, log) <==> !o.script(o.start + 7).lost
    ensures Undertaken(o.Acts(end, log)) <==> !o.script(o.start + 7).lost
  {
    hide Opening.Acts, Opening.Handed, Prepares, Undertaken, FinishLands, FinishSeen;
    OwnedActs(o, end, log);
  }

  /** Otherwise the window changes nothing more and reports no cleanup failure. */
  lemma LostPrepareStays(o: Opening, answered: bool)
    requires PREPARE in o.Writes() && o.script(o.start + 7).lost
    ensures o.Writes() == [PREPARE] && o.Prepared() && !o.Owned()
    ensures var r := o.Result(answered); r.status == FAILED && r.stages == ALL_STAGES[..3] && !r.cleanupFailure
  {
    hide Opening.Handed, PrepareLands, ChecksPass, FinishLands, FinishSeen;
  }

  /**
   * Once the prepare is acknowledged, the device is seen off at version 14, or the result is FAILED with a cleanup
   * failure.
   */
  lemma AcknowledgedIsEndedOrReported(o: Opening, end: nat, log: seq<Entry>, answered: bool)
    requires PrepareAcknowledged in o.Acts(end, log)
    ensures SawFinished(AFTER) in o.Acts(end, log)
            || (o.Result(answered).status == FAILED && o.Result(answered).cleanupFailure)
  {
    hide Opening.Acts, Opening.Owned, Opening.Tried, FinishSeen, CleanupTurn, CleanupRow, Ended;
    OwnedActs(o, end, log);
    CleanupIsLocked(o);
  }

  /** The cleanup fails only when the answers of `finish-owned` or of the record of it do. */
  lemma CleanupFailsIff(o: Opening, answered: bool)
    ensures o.Result(answered).cleanupFailure <==>
              && o.NeedsCleanup()
              && !CleanupPasses(o.script, CleanupTurn(o.script, o.start), CleanupRow(o.script, o.start))
  {
    hide Opening.NeedsCleanup, CleanupPasses, StagesPassed, Recovery, Presence, Opening.Handed;
  }

  /** While the window had the maintenance and until it saw it ended, the row was at on, 13 or off, 14 in every turn. */
  lemma UncontestedInside(o: Opening, turn: nat)
    requires Ended(o.script, o.start, o.device) && o.start + 8 <= turn <= o.start + 16
    ensures RowInside(o.script, o.start, turn) in {DURING, AFTER}
  {
    hide RowAfter, Installed, ObservationEnds, Exit, Lands, Identified;
    RowCompose(o.script, DURING, o.start + 8, o.start + 15, o.start + 16);
    OneChangeAtMost(o.script, DURING, o.start + 8, turn, o.start + 16);
  }

  lemma OneChangeAtMost(script: Script, d: Device, a: nat, b: nat, c: nat)
    requires a <= b <= c && RowAfter(script, d, a, c).version <= d.version + 1
    ensures RowAfter(script, d, a, b) == d || RowAfter(script, d, a, b) == RowAfter(script, d, a, c)
  {
    hide RowAfter;
    RowCompose(script, d, a, b, c);
    RowVersion(script, d, a, b);
    RowVersion(script, RowAfter(script, d, a, b), b, c);
  }

  // ----- when nothing goes wrong -----

  /** From this turn on nothing breaks, and nobody else touches the lock store or the device. */
  ghost predicate Undisturbed(script: Script, start: nat) {
    forall n :: n >= start ==> Smooth(script(n)) && script(n).lockCommands == []
  }

  lemma {:induction false} RowStill(script: Script, start: nat, d: Device, a: nat, b: nat)
    requires Undisturbed(script, start) && start <= a
    ensures RowAfter(script, d, a, b) == d
  {
    if a < b {
      RowStill(script, start, d, a, b - 1);
      assert Smooth(script(b - 1));
    }
  }

  lemma UndisturbedChecks(script: Script, start: nat, s: nat, d: Device)
    requires Undisturbed(script, start) && start <= s
    ensures ChecksPass(script, s, d, d) && ObservationEnds(script, s)
    ensures ObservationOf(script, s, d, d)
            == Observation(script(s).heartbeats, script(s).deferrals, script(s).healthy, true)
    ensures Smooth(script(s)) && Smooth(script(s + 1)) && Smooth(script(s + 2))
  {
    hide RowAfter;
    RowStill(script, start, d, s, s + 2);
    assert Smooth(script(s)) && Smooth(script(s + 1)) && Smooth(script(s + 2));
  }

  lemma UndisturbedPrepare(script: Script, start: nat, s: nat)
    requires Undisturbed(script, start) && start <= s
    ensures PrepareLands(script, s, BEFORE)
    ensures FinishLands(script, s, DURING) && FinishSeen(script, s, DURING) && FinishTurns(script, s, DURING) == 3
  {
    hide RowAfter;
    UndisturbedChecks(script, start, s, BEFORE);
    RowStill(script, start, BEFORE, s, s + 1);
    RowStill(script, start, BEFORE, s + 1, s + 2);
    RowStill(script, start, DURING, s, s + 1);
    RowStill(script, start, DURING, s + 1, s + 2);
    RowStill(script, start, AFTER, s + 2, s + 3);
  }

  /** Then every stage is passed, and the verdicts are those of the counts in two turns. */
  lemma UndisturbedCourse(script: Script, start: nat)
    requires Undisturbed(script, start)
    ensures Complete(script, start, BEFORE)
    ensures var t := script(start + 12);
            Recovery(script, start, BEFORE) <==> t.heartbeats >= 3 && t.deferrals >= 2 && t.healthy
    ensures var t := script(start + 19); Presence(script, start, BEFORE) <==> t.heartbeats >= 3 && t.healthy
  {
    hide RowAfter, ChecksPass, PrepareLands, FinishLands, FinishSeen, FinishTurns, ObservationEnds, ObservationOf;
    RowStill(script, start, BEFORE, start, start + 3);
    RowStill(script, start, BEFORE, start, start + 6);
    UndisturbedChecks(script, start, start + 3, BEFORE);
    UndisturbedPrepare(script, start, start + 6);
    UndisturbedChecks(script, start, start + 8, DURING);
    UndisturbedChecks(script, start, start + 7, DURING);
    UndisturbedChecks(script, start, start + 11, DURING);
    UndisturbedChecks(script, start, start + 12, DURING);
    RowStill(script, start, DURING, start + 8, start + 12);
    RowStill(script, start, DURING, start + 8, start + 15);
    UndisturbedPrepare(script, start, start + 15);
    UndisturbedChecks(script, start, start + 17, AFTER);
    RowStill(script, start, AFTER, start + 18, start + 19);
    RowStill(script, start, AFTER, start + 18, start + 22);
    UndisturbedChecks(script, start, start + 19, AFTER);
    UndisturbedChecks(script, start, start + 22, AFTER);
  }

  lemma {:induction false} NothingScripted(script: Script, start: nat, end: nat)
    requires Undisturbed(script, start) && start <= end
    ensures ScriptedCommands(script, end) == ScriptedCommands(script, start)
  {
    if start < end { NothingScripted(script, start, end - 1); }
  }

  lemma {:induction false} LogLength(log: seq<Entry>)
    ensures |log| == |Others(log)| + |OwnIndices(log)|
  {
    if log != [] { LogLength(Init(log)); }
  }

  lemma UndisturbedAcquire(o: Opening)
    requires Undisturbed(o.script, o.start) && !Taken(o.hash, o.before)
    ensures o.Sent() == Some(o.before)
    ensures o.Handed() == Some(Lock(Counter(Run(o.hash, EMPTY, o.before), SERIAL), o.script(o.start + 2).secret))
  {
    hide Run, Taken, Counter;
    assert Smooth(o.script(o.start)) && Smooth(o.script(o.start + 1)) && Smooth(o.script(o.start + 2));
    assert o.before + [] == o.before;
  }

  lemma AcquiredRow(hash: Hash, t: Tables, acquire: Turn)
    requires SERIAL !in t.locks
    ensures var after := Step(hash, t, AcquireOf(acquire)).0;
            && SERIAL in after.locks
            && after.locks[SERIAL].fencing == Counter(t, SERIAL)
            && after.locks[SERIAL].tokenHash == hash(acquire.secret)
  {
    hide ValidIdentity, ValidSerial, Counter;
    AcquireIsWellFormed(acquire);
  }

  lemma OwnerReleases(hash: Hash, t: Tables, lock: Lock, turn: Turn)
    requires SERIAL in t.locks && t.locks[SERIAL].fencing == lock.fencing >= 1
    requires t.locks[SERIAL].tokenHash == hash(lock.ownerToken) && lock.ownerToken != ""
    ensures Step(hash, t, ReleaseOf(lock, turn)).1.Freed?
  {
    hide ValidIdentity, ValidSerial, Describe;
    NamesAreValid();
  }

  lemma CounterIsPositive(hash: Hash, cmds: seq<Cmd>)
    ensures Counter(Run(hash, EMPTY, cmds), SERIAL) >= 1
  {
    hide Counter, Run;
    FencingHasNoGapsOrReuse(hash, cmds, SERIAL);
  }

  /** A release that directly follows the acquire succeeds, however late. */
  lemma ReleaseAfterAcquire(hash: Hash, before: seq<Cmd>, acquire: Turn, lock: Lock, t: Turn)
    requires !Taken(hash, before) && acquire.secret != ""
    requires lock == Lock(Counter(Run(hash, EMPTY, before), SERIAL), acquire.secret)
    ensures Step(hash, Run(hash, EMPTY, before + [AcquireOf(acquire)]), ReleaseOf(lock, t)).1.Freed?
  {
    hide Step, Counter, Run, AcquireOf, ReleaseOf;
    CounterIsPositive(hash, before);
    AcquiredRow(hash, Run(hash, EMPTY, before), acquire);
    AppendedStep(hash, before, AcquireOf(acquire));
    OwnerReleases(hash, Run(hash, EMPTY, before + [AcquireOf(acquire)]), lock, t);
  }

  lemma AppendedStep(hash: Hash, cmds: seq<Cmd>, c: Cmd)
    ensures Run(hash, EMPTY, cmds + [c]) == Step(hash, Run(hash, EMPTY, cmds), c).0
  {
    hide Step;
    assert Init(cmds + [c]) == cmds;
  }

  /** The log is what there was, the acquire and the release. */
  lemma {:induction false} UndisturbedLog(o: Opening, end: nat, log: seq<Entry>)
    requires Undisturbed(o.script, o.start) && !Taken(o.hash, o.before) && o.start < end
    requires LockStory(o, end, log) && Others(log) == o.before
    ensures |log| == |o.before| + 2
    ensures Commands(log)[..|log| - 1] == o.before + [AcquireOf(o.script(o.start + 2))]
    ensures o.Handed().Some? && Commands(log)[|log| - 1] == ReleaseOf(o.Handed().value, o.script(end - 1))
  {
    hide Run, Step, Taken, Counter, OwnIndices, Others, Commands, AcquireOf, ReleaseOf, Opening.Sent, Opening.Handed;
    UndisturbedAcquire(o);
    assert Smooth(o.script(end - 1));
    LogLength(log);
  }

  lemma UndisturbedRelease(o: Opening, end: nat, log: seq<Entry>)
    requires Undisturbed(o.script, o.start) && !Taken(o.hash, o.before) && o.start < end
    requires LockStory(o, end, log) && Others(log) == o.before
    ensures ReleaseAnswer(o.hash, o.script(end - 1), log).Some?
  {
    hide Run, Step, Taken, Counter, OwnIndices, Others, Commands, AcquireOf, ReleaseOf, LockStory, Opening.Handed;
    UndisturbedLog(o, end, log);
    UndisturbedAcquire(o);
    assert Smooth(o.script(end - 1)) && Smooth(o.script(o.start + 2));
    ReleaseAfterAcquire(o.hash, o.before, o.script(o.start + 2), o.Handed().value, o.script(end - 1));
  }

  lemma {:induction false} OthersAreAll(log: seq<Entry>)
    requires OwnIndices(log) == []
    ensures Others(log) == Commands(log)
  {
    if log != [] { OthersAreAll(Init(log)); }
  }

  /** Both observations of such a window count enough signs of life. */
  predicate Counted(script: Script, start: nat) {
    var first, second := script(start + 12), script(start + 19);
    && first.heartbeats >= 3 && first.deferrals >= 2 && first.healthy
    && second.heartbeats >= 3 && second.healthy
  }

  /** A window in which nothing breaks passes every stage, and its release is acknowledged. */
  lemma UndisturbedResult(o: Opening, past: seq<Cmd>, end: nat, log: seq<Entry>)
    requires Undisturbed(o.script, o.start) && !Taken(o.hash, o.before) && o.device == BEFORE
    requires LockStory(o, end, log) && (o.Handed().Some? ==> o.start < end)
    requires o.before == past + ScriptedCommands(o.script, o.start)
    requires Others(log) == past + ScriptedCommands(o.script, end)
    ensures var answered := end > 0 && ReleaseAnswer(o.hash, o.script(end - 1), log).Some?;
            && o.Result(answered).stages == ALL_STAGES
            && o.Result(answered).status == if Counted(o.script, o.start) then PROVEN else NOT_PROVEN
  {
    hide Run, Taken, Counter, Others, Commands, LockStory, Complete, Recovery, Presence, ScriptedCommands;
    hide ReleaseAnswer, Opening.Handed, Opening.Result, Opening.Sent, Undisturbed;
    UndisturbedAcquire(o);
    UndisturbedCourse(o.script, o.start);
    NothingScripted(o.script, o.start, end);
    UndisturbedRelease(o, end, log);
    ProvenIff(o, true);
    NotProvenIff(o, true);
    ResultStages(o, true);
  }

  // ----- one unhealthy sample -----

  /** Nobody else does anything and nothing breaks, but the samples of the turn 12 are not all healthy. */
  function Unhealthy(): Script {
    (n: nat) => Turn([], [], 0, false, false, false, false, true, true, 3, 2, n != 12, "token")
  }

  lemma UnhealthyIsUndisturbed()
    ensures Undisturbed(Unhealthy(), 0) && !Counted(Unhealthy(), 0)
  {
  }

  // ----- two turns whose answer must not be lost -----

  /** Nobody else does anything, and only the answer in this turn is lost. */
  function Losing(turn: nat): Script {
    (n: nat) => Turn([], [], 0, false, n == turn, false, false, true, true, 3, 2, true, "token")
  }

  lemma {:induction false} NobodyElse(turn: nat, n: nat)
    ensures ScriptedCommands(Losing(turn), n) == []
  {
    if n > 0 { NobodyElse(turn, n - 1); }
  }

  lemma {:induction false} LosingRow(turn: nat, d: Device, a: nat, b: nat)
    ensures RowAfter(Losing(turn), d, a, b) == d
  {
    if a < b { LosingRow(turn, d, a, b - 1); }
  }

  lemma {:induction false} NoOthers(log: seq<Entry>, k: nat)
    requires Others(log) == [] && k < |log|
    ensures log[k].ours
  {
    if k < |log| - 1 { NoOthers(Init(log), k); }
  }

  lemma NothingRun(hash: Hash)
    ensures Run(hash, EMPTY, []) == EMPTY && !Taken(hash, []) && Counter(EMPTY, SERIAL) == 1
  {
  }

  function LosingOpening(hash: Hash, turn: nat): Opening {
    Opening(hash, [], Losing(turn), 0, BEFORE)
  }

  /** The acquire is the first command of all; its lock is handed over unless its own answer is lost. */
  lemma LosingLock(hash: Hash, turn: nat)
    requires turn >= 2
    ensures LosingOpening(hash, turn).Sent() == Some([])
    ensures LosingOpening(hash, turn).Handed() == if turn == 2 then None else Some(Lock(1, "token"))
  {
    hide Taken, Run;
    NothingRun(hash);
    var none: seq<Cmd> := [];
    assert none + none == none;
    assert Losing(turn)(0).lockCommands == Losing(turn)(1).lockCommands == Losing(turn)(2).lockCommands == none;
  }

  /** The lost acquire: the lock is granted, never released, and still held when the window ends. */
  lemma LostAcquire(hash: Hash, end: nat, log: seq<Entry>)
    requires LockStory(LosingOpening(hash, 2), end, log) && Others(log) == []
    ensures OwnGrant(hash, log, 0) && !Attempted(LosingOpening(hash, 2).Acts(end, log))
    ensures Live(Run(hash, EMPTY, Commands(log)), SERIAL, 1)
  {
    hide Run, Step, OwnIndices, Commands, Live, Others, Taken, Counter, EndsToken, Attempted, Opening.Acts;
    var o := LosingOpening(hash, 2);
    LosingLock(hash, 2);
    NothingRun(hash);
    assert Commands(log)[..0] == [];
    ReplyToAcquire(hash, [], o.script(2), log);
    OwnIndicesAreExact(log, 0);
    AttemptIffAnswerKept(o, end, log, 0);
    MislaidLockStays(o, end, log, 0);
    forall k | 0 <= k < |log| ensures log[k].ours { NoOthers(log, k); }
  }

  /** The lost prepare: it takes effect, and nothing is done about it. */
  lemma LostPrepare(hash: Hash)
    ensures PREPARE in LosingOpening(hash, 7).Writes() && LosingOpening(hash, 7).script(7).lost
  {
    hide RowAfter, FinishLands;
    var o := LosingOpening(hash, 7);
    LosingLock(hash, 7);
    LosingRow(7, BEFORE, 0, 3);
    LosingRow(7, BEFORE, 3, 5);
    LosingRow(7, BEFORE, 0, 6);
    LosingRow(7, BEFORE, 6, 7);
    LosingRow(7, BEFORE, 7, 8);
    assert o.Prepared();
    assert o.TryWrites()[0] == PREPARE;
  }
}
