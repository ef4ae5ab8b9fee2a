/**
 * The course of a maintenance window spelled out in the fields of its turns and of the device row: which of its
 * turns must bring what for the lock, for every stage, for both verdicts, for the changes of the device, and for
 * PROVEN.
 */
module WindowLaws {
  import opened Common
  import opened DeviceLock
  import opened DeviceLockRuns
  import opened WindowRecords
  import opened WindowCourse
  import opened WindowStories

  // ----- what a turn brings -----

  function At(o: Opening, k: nat): Turn {
    o.script(o.start + k)
  }

  predicate Unbroken(t: Turn) {
    !t.fails && !t.lost && !t.saveFails
  }

  /** A snapshot comes back, of the right device, and it shows this maintenance flag and version. */
  predicate Identifies(t: Turn, row: Device, on: bool, version: int) {
    !t.fails && !t.lost && t.identityOk && row.maintenance == on && row.version == version
  }

  predicate Shows(t: Turn, row: Device, on: bool, version: int) {
    Identifies(t, row, on, version) && t.idle
  }

  /** The row in turn k before the window's prepare, in maintenance, and after the turn e in which it was seen off. */
  function Before(o: Opening, k: nat): Device {
    RowAfter(o.script, o.device, o.start, o.start + k + 1)
  }

  function Inside(o: Opening, k: nat): Device {
    RowAfter(o.script, Device(true, 13), o.start + 8, o.start + k + 1)
  }

  function Outside(o: Opening, e: nat, k: nat): Device {
    RowAfter(o.script, Device(false, 14), o.start + e, o.start + k + 1)
  }

  // ----- the row -----

  /** A request moves the row if and only if no lease is active and it names the present version, or none. */
  lemma ServedLaw(d: Device, requests: seq<Request>, r: Request)
    ensures Served(d, []) == d
    ensures var row := Served(d, requests);
            Served(d, requests + [r]) ==
              if !r.leased && (r.expectedVersion == None || r.expectedVersion == Some(row.version)) then
                Device(r.enabled, row.version + 1)
              else row
  {
    assert Init(requests + [r]) == requests;
  }

  lemma RowLaw(script: Script, d: Device, a: nat, b: nat)
    ensures RowAfter(script, d, a, a) == d
    ensures a <= b ==> RowAfter(script, d, a, b + 1) == Served(RowAfter(script, d, a, b), script(b).requests)
  {
  }

  // ----- the lock -----

  /** The serial has a lock row after these commands. */
  predicate HasRow(hash: Hash, cmds: seq<Cmd>) {
    "b0644fb5" in Run(hash, EMPTY, cmds).locks
  }

  /**
   * The acquire is sent if and only if the candidate checks pass, the status comes back and shows no row, and the
   * call is made; the lock is handed over if and only if there still is no row and nothing of the answer is lost.
   */
  lemma HandedLaw(o: Opening)
    ensures var seen := o.before + At(o, 0).lockCommands + At(o, 1).lockCommands;
            var sent := seen + At(o, 2).lockCommands;
            && o.Sent() == (if Unbroken(At(o, 0)) && !At(o, 1).fails && !At(o, 1).lost && !HasRow(o.hash, seen)
                               && !At(o, 2).fails then Some(sent) else None)
            && (o.Handed().Some? <==>
                  o.Sent().Some? && !HasRow(o.hash, sent) && !At(o, 2).lost && !At(o, 2).saveFails)
            && (o.Handed().Some? ==>
                  var counters := Run(o.hash, EMPTY, sent).counters;
                  && o.Handed().value.ownerToken == At(o, 2).secret
                  && o.Handed().value.fencing == if "b0644fb5" in counters then counters["b0644fb5"] else 1)
  {
    hide Run;
  }

  /** The two lock commands of the window. */
  lemma CommandLaw(lock: Lock, t: Turn)
    ensures AcquireOf(t) == Acquire("b0644fb5", "sol-v6-acceptance-20260928",
                                    "Authorized OnePlus v6 " + "maintenance-recovery acceptance",
                                    Some("three-device-oneplus-v6-maintenance-recovery"), 1800, t.now, t.secret)
    ensures ReleaseOf(lock, t) == Release("b0644fb5", lock.ownerToken, lock.fencing, t.now)
  {
  }

  /** The release is acknowledged if and only if its turn brings and keeps the answer that the lock is free. */
  lemma AcknowledgedLaw(hash: Hash, t: Turn, log: seq<Entry>)
    ensures ReleaseAnswer(hash, t, log).Some? <==>
              Unbroken(t) && log != [] && ReplyAt(hash, EMPTY, Commands(log), |log| - 1).Freed?
    ensures ReleaseAnswer(hash, t, log).Some? ==>
              ReleaseAnswer(hash, t, log).value == ReplyAt(hash, EMPTY, Commands(log), |log| - 1).releasedFencing
  {
    hide ReplyAt;
  }

  // ----- the way in -----

  predicate PassesPreflight(o: Opening) {
    o.Handed().Some? && Unbroken(At(o, 3)) && Shows(At(o, 4), Before(o, 4), false, 12) && Unbroken(At(o, 5))
  }

  /** The prepare is asked for, and nobody is in its way. */
  predicate PrepareLanded(o: Opening) {
    && PassesPreflight(o) && Shows(At(o, 6), Before(o, 6), false, 12)
    && !At(o, 7).fails && !At(o, 7).leased && Before(o, 7) == Device(false, 12)
  }

  predicate GetsIn(o: Opening) {
    && PrepareLanded(o) && !At(o, 7).lost
    && Unbroken(At(o, 8)) && Shows(At(o, 9), Inside(o, 9), true, 13) && Unbroken(At(o, 10))
  }

  predicate Installs(o: Opening) {
    GetsIn(o) && Unbroken(At(o, 11))
  }

  lemma PreflightLaw(o: Opening)
    requires o.Handed().Some?
    ensures Preflighted(o.script, o.start, o.device) <==> PassesPreflight(o)
  {
    hide RowAfter, Opening.Handed;
    RowCompose(o.script, o.device, o.start, o.start + 3, o.start + 5);
  }

  lemma PrepareLaw(o: Opening)
    requires o.Handed().Some?
    ensures Prepares(o.script, o.start, o.device) <==> PrepareLanded(o)
  {
    hide RowAfter, Opening.Handed, Preflighted, PassesPreflight;
    PreflightLaw(o);
    RowCompose(o.script, o.device, o.start, o.start + 6, o.start + 7);
    RowCompose(o.script, o.device, o.start, o.start + 7, o.start + 8);
    assert RowAfter(o.script, RowAfter(o.script, o.device, o.start, o.start + 6), o.start + 6, o.start + 7)
        == Before(o, 6);
  }

  lemma EnteredLaw(o: Opening)
    requires o.Handed().Some?
    ensures Entered(o.script, o.start, o.device) <==> GetsIn(o)
    ensures Installed(o.script, o.start, o.device) <==> Installs(o)
  {
    hide RowAfter, Opening.Handed, Prepares, PrepareLanded;
    PrepareLaw(o);
  }

  // ----- the first observation and the way out -----

  /** An observation from turn k on: three turns, the second of which answers. */
  predicate Observes(o: Opening, k: nat) {
    Unbroken(At(o, k)) && !At(o, k + 1).fails && !At(o, k + 1).lost && Unbroken(At(o, k + 2))
  }

  predicate FirstCounts(o: Opening) {
    && Observes(o, 12) && At(o, 12).heartbeats >= 3 && At(o, 12).deferrals >= 2 && At(o, 12).healthy
    && Shows(At(o, 13), Inside(o, 13), true, 13)
  }

  /** `finish-owned` from turn k, with the row d, writes: it sees the maintenance, asks, and nobody is in its way. */
  predicate EndLands(o: Opening, k: nat, d: Device) {
    && Identifies(At(o, k), RowAfter(o.script, d, o.start + k, o.start + k + 1), true, 13)
    && !At(o, k + 1).fails && !At(o, k + 1).leased
    && RowAfter(o.script, Device(true, 13), o.start + k + 1, o.start + k + 2) == Device(true, 13)
  }

  /** `finish-owned` from turn k sees the device at off, version 14, in turn e - 1: at once, or after its own write. */
  predicate SeesOff(o: Opening, k: nat, d: Device, e: nat) {
    || (e == k + 1 && Identifies(At(o, k), RowAfter(o.script, d, o.start + k, o.start + k + 1), false, 14))
    || (e == k + 3 && EndLands(o, k, d) && !At(o, k + 1).lost
        && Identifies(At(o, k + 2), RowAfter(o.script, Device(false, 14), o.start + k + 2, o.start + k + 3), false, 14))
  }

  lemma FinishLaw(o: Opening, k: nat, d: Device)
    ensures FinishLands(o.script, o.start + k, d) <==> EndLands(o, k, d)
    ensures FinishSeen(o.script, o.start + k, d) <==>
              SeesOff(o, k, d, FinishTurns(o.script, o.start + k, d) + k)
    ensures forall e :: SeesOff(o, k, d, e) ==> e == FinishTurns(o.script, o.start + k, d) + k
  {
    hide RowAfter;
  }

  /** The maintenance is seen ended, on an idle device, by the finish that starts in turn 15. */
  predicate Ends(o: Opening, e: nat) {
    Installs(o) && Observes(o, 12) && SeesOff(o, 15, Inside(o, 14), e) && At(o, e - 1).idle
  }

  lemma ExitLaw(o: Opening)
    requires o.Handed().Some?
    ensures var e := Exit(o.script, o.start) - o.start;
            && 15 < e && (Ended(o.script, o.start, o.device) <==> Ends(o, e))
            && (Finished(o.script, o.start, o.device) <==> Ends(o, e) && Unbroken(At(o, e)))
            && forall e' :: Ends(o, e') ==> e' == e
  {
    hide RowAfter, Opening.Handed, Installed, Installs, FinishSeen, FinishTurns, SeesOff;
    EnteredLaw(o);
    FinishLaw(o, 15, Inside(o, 14));
    assert FinishTurns(o.script, o.start + 15, Inside(o, 14)) >= 1 by { OneTurnAtLeast(o, 15, Inside(o, 14)); }
  }

  lemma OneTurnAtLeast(o: Opening, k: nat, d: Device)
    ensures FinishTurns(o.script, o.start + k, d) >= 1
  {
  }

  // ----- after maintenance -----

  predicate SecondCounts(o: Opening, e: nat) {
    && Observes(o, e + 1) && At(o, e + 1).heartbeats >= 3 && At(o, e + 1).healthy
    && Shows(At(o, e + 2), Outside(o, e, e + 2), false, 14)
  }

  predicate PassesFinal(o: Opening, e: nat) {
    && Observes(o, e + 1)
    && Unbroken(At(o, e + 4)) && Shows(At(o, e + 5), Outside(o, e, e + 5), false, 14) && Unbroken(At(o, e + 6))
  }

  lemma RecoveryLaw(o: Opening)
    requires o.Handed().Some?
    ensures Recovery(o.script, o.start, o.device) <==> Installs(o) && FirstCounts(o)
  {
    hide RowAfter, Opening.Handed, Installed, Installs;
    EnteredLaw(o);
    RowCompose(o.script, DURING, o.start + 8, o.start + 12, o.start + 14);
  }

  lemma ObservesLaw(o: Opening, k: nat)
    ensures ObservationEnds(o.script, o.start + k) <==> Observes(o, k)
    ensures Observes(o, k) ==> !At(o, k + 1).fails && !At(o, k + 1).lost
  {
  }

  lemma ChecksLaw(o: Opening, k: nat, d: Device, on: bool, version: int)
    ensures ChecksPass(o.script, o.start + k, d, Device(on, version)) <==>
              && Unbroken(At(o, k))
              && Shows(At(o, k + 1), RowAfter(o.script, d, o.start + k, o.start + k + 2), on, version)
              && Unbroken(At(o, k + 2))
  {
    hide RowAfter;
  }

  lemma OutsideRows(o: Opening, e: nat, a: nat, b: nat)
    requires e <= a <= b
    ensures RowAfter(o.script, RowAfter(o.script, Device(false, 14), o.start + e, o.start + a), o.start + a,
                     o.start + b)
         == RowAfter(o.script, Device(false, 14), o.start + e, o.start + b)
  {
    RowCompose(o.script, Device(false, 14), o.start + e, o.start + a, o.start + b);
  }

  lemma PresenceLaw(o: Opening)
    requires o.Handed().Some?
    ensures var e := Exit(o.script, o.start) - o.start;
            Presence(o.script, o.start, o.device) <==> Ends(o, e) && Unbroken(At(o, e)) && SecondCounts(o, e)
  {
    hide RowAfter, Opening.Handed, Exit, Finished, Ends, ObservationEnds, Observes;
    ExitLaw(o);
    var e := Exit(o.script, o.start) - o.start;
    ObservesLaw(o, e + 1);
    OutsideRows(o, e, e + 1, e + 3);
  }

  lemma CompleteLaw(o: Opening)
    requires o.Handed().Some?
    ensures var e := Exit(o.script, o.start) - o.start;
            Complete(o.script, o.start, o.device) <==> Ends(o, e) && Unbroken(At(o, e)) && PassesFinal(o, e)
  {
    hide RowAfter, Opening.Handed, Exit, Finished, Ends, ObservationEnds, Observes, ChecksPass, Shows, Unbroken;
    ExitLaw(o);
    var e := Exit(o.script, o.start) - o.start;
    ObservesLaw(o, e + 1);
    OutsideRows(o, e, e + 4, e + 6);
    ChecksLaw(o, e + 4, RowOutside(o.script, o.start, o.start + e + 4), false, 14);
  }

  // ----- the result -----

  /**
   * PROVEN, spelled out: the lock is handed over, every turn up to the install goes well, both observations count
   * enough signs of life of a healthy device with the row, the identity and the occupancy as they should be, the
   * device is seen off in between, the final checks pass, and the release is acknowledged.
   */
  lemma ProvenInFull(o: Opening, answered: bool)
    ensures o.Result(answered).status == PROVEN <==>
              && Installs(o) && FirstCounts(o)
              && (exists e :: 15 < e <= 18 && Ends(o, e) && Unbroken(At(o, e)) && SecondCounts(o, e)
                              && PassesFinal(o, e))
              && answered
  {
    hide RowAfter, Opening.Handed, Opening.Result, Complete, Recovery, Presence, Exit, Ends, SecondCounts, PassesFinal;
    ProvenIff(o, answered);
    if o.Handed().Some? {
      RecoveryLaw(o);
      PresenceLaw(o);
      CompleteLaw(o);
      ExitLaw(o);
      ExitIsNear(o);
    } else {
      NoLockNoStage(o);
    }
  }

  lemma ExitIsNear(o: Opening)
    ensures o.start + 15 < Exit(o.script, o.start) <= o.start + 18
  {
    hide RowAfter, FinishLands;
  }

  lemma NoLockNoStage(o: Opening)
    requires o.Handed().None?
    ensures !PassesPreflight(o) && !Installs(o)
  {
    hide Opening.Handed;
  }

  /** The stages that a result lists are the first ones of this list, each passed under its own condition. */
  lemma StagesInFull(o: Opening, answered: bool)
    ensures var stages, e := o.Result(answered).stages, Exit(o.script, o.start) - o.start;
            && stages <= [CandidateValidated, DeviceLockAcquired, LockedPreflightPassed, MaintenanceEntered,
                          V6Installed, MaintenanceExited, FinalGatesPassed]
            && (|stages| >= 1 <==> Unbroken(At(o, 0)))
            && (|stages| >= 2 <==> o.Handed().Some?)
            && (|stages| >= 3 <==> PassesPreflight(o))
            && (|stages| >= 4 <==> GetsIn(o))
            && (|stages| >= 5 <==> Installs(o))
            && (|stages| >= 6 <==> Ends(o, e) && Unbroken(At(o, e)))
            && (|stages| >= 7 <==> Ends(o, e) && Unbroken(At(o, e)) && PassesFinal(o, e))
  {
    hide RowAfter, Opening.Handed, Complete, Finished, Installed, Entered, Preflighted, Exit, Ends, PassesFinal;
    hide Recovery, Presence, PassesPreflight, GetsIn, Installs, Opening.NeedsCleanup, CleanupPasses, Unbroken;
    StageOrder(o);
    LockedFirst(o);
    ExitIsNear(o);
    if o.Handed().Some? {
      PreflightLaw(o);
      EnteredLaw(o);
      ExitLaw(o);
      CompleteLaw(o);
    }
  }

  /** Each stage needs the one before. */
  lemma StageOrder(o: Opening)
    ensures Complete(o.script, o.start, o.device) ==> Finished(o.script, o.start, o.device)
    ensures Finished(o.script, o.start, o.device) ==> Installed(o.script, o.start, o.device)
    ensures Installed(o.script, o.start, o.device) ==> Entered(o.script, o.start, o.device)
    ensures Entered(o.script, o.start, o.device) ==> Preflighted(o.script, o.start, o.device)
  {
    hide RowAfter, ChecksPass, ObservationEnds, FinishSeen, Exit, PrepareLands;
  }

  lemma LockedFirst(o: Opening)
    ensures o.Handed().Some? ==> Unbroken(At(o, 0))
    ensures Intact(o.script(o.start)) <==> Unbroken(At(o, 0))
    ensures o.Handed().None? ==> !PassesPreflight(o) && !GetsIn(o) && !Installs(o) && forall e :: !Ends(o, e)
  {
    hide RowAfter, BeforeAcquire, Handed;
  }

  /** The rest of the result: the verdicts, the token, and what each failure is reported for. */
  lemma ResultInFull(o: Opening, answered: bool)
    ensures var r, e := o.Result(answered), Exit(o.script, o.start) - o.start;
            && (r.maintenanceRecovery <==> Installs(o) && FirstCounts(o))
            && (r.postMaintenancePresence <==> Ends(o, e) && Unbroken(At(o, e)) && SecondCounts(o, e))
            && (r.failure <==> |r.stages| < 7)
            && r.lockReleased == (if o.Handed().Some? then Some(answered) else None)
            && (r.releaseFailure <==> o.Handed().Some? && !answered)
            && r.fencing == (if o.Handed().Some? then Some(o.Handed().value.fencing) else None)
            && (r.status == FAILED <==> r.failure || r.cleanupFailure || r.releaseFailure)
            && (r.status == PROVEN ==> r.maintenanceRecovery && r.postMaintenancePresence)
            && (r.status == NOT_PROVEN ==> !(r.maintenanceRecovery && r.postMaintenancePresence))
  {
    hide RowAfter, Opening.Handed, Exit, Ends, SecondCounts, Installs, FirstCounts, Complete, Recovery, Presence;
    hide Finished, Installed, Entered, Preflighted, Opening.NeedsCleanup, CleanupPasses, Intact;
    LockedFirst(o);
    ExitIsNear(o);
    if o.Handed().Some? {
      RecoveryLaw(o);
      PresenceLaw(o);
    }
  }

  // ----- the device -----

  /** The try block stops in this turn, the first after 7 that does not go well, or in the finish. */
  predicate StepGoesWell(o: Opening, k: nat) {
    if k == 9 then Shows(At(o, 9), Inside(o, 9), true, 13)
    else if k == 13 then !At(o, 13).fails && !At(o, 13).lost
    else Unbroken(At(o, k))
  }

  predicate StopsAt(o: Opening, k: nat) {
    8 <= k < 15 && !StepGoesWell(o, k) && forall j :: 8 <= j < k ==> StepGoesWell(o, j)
  }

  /** The cleanup starts in the turn after the one that does not go well, with the row found there. */
  lemma CleanupTurnLaw(o: Opening, k: nat)
    requires StopsAt(o, k)
    ensures CleanupTurn(o.script, o.start) == o.start + k + 1 && CleanupRow(o.script, o.start) == Inside(o, k)
  {
    hide RowAfter, Exit;
    assert forall j :: 8 <= j < k ==> StepGoesWell(o, j);
    if k > 8 { assert StepGoesWell(o, 8); }
    if k > 9 { assert StepGoesWell(o, 9); }
    if k > 10 { assert StepGoesWell(o, 10); }
    if k > 11 { assert StepGoesWell(o, 11); }
    if k > 12 { assert StepGoesWell(o, 12); }
    if k > 13 { assert StepGoesWell(o, 13); }
  }

  /** `finish-owned` from turn k takes one turn, or two when its request does not land or is not answered, or three. */
  function FinishTakes(o: Opening, k: nat, d: Device): nat {
    if !Identifies(At(o, k), RowAfter(o.script, d, o.start + k, o.start + k + 1), true, 13) then 1
    else if !EndLands(o, k, d) || At(o, k + 1).lost then 2
    else 3
  }

  /** It leaves the row as others make it, from its own write on if that landed. */
  function FinishLeaves(o: Opening, k: nat, d: Device): Device {
    var turns := FinishTakes(o, k, d);
    if EndLands(o, k, d) then RowAfter(o.script, Device(false, 14), o.start + k + 2, o.start + k + turns)
    else RowAfter(o.script, d, o.start + k, o.start + k + turns)
  }

  /** When every turn up to the finish goes well, a cleanup starts where the finish stopped. */
  lemma CleanupAfterFinishLaw(o: Opening)
    requires forall k :: 8 <= k < 15 ==> StepGoesWell(o, k)
    ensures CleanupTurn(o.script, o.start) == o.start + 15 + FinishTakes(o, 15, Inside(o, 14))
    ensures CleanupRow(o.script, o.start) == FinishLeaves(o, 15, Inside(o, 14))
  {
    hide RowAfter, FinishTurns, FinishRow, FinishTakes, FinishLeaves;
    assert StepGoesWell(o, 8) && StepGoesWell(o, 9) && StepGoesWell(o, 10) && StepGoesWell(o, 11);
    assert StepGoesWell(o, 12) && StepGoesWell(o, 13) && StepGoesWell(o, 14);
    FinishCourseLaw(o, 15, Inside(o, 14));
  }

  lemma FinishCourseLaw(o: Opening, k: nat, d: Device)
    ensures FinishTurns(o.script, o.start + k, d) == FinishTakes(o, k, d)
    ensures FinishRow(o.script, o.start + k, d) == FinishLeaves(o, k, d)
  {
    hide RowAfter;
  }

  /** The window's changes: the prepare if it lands, and the finish if one of its two attempts lands. */
  lemma WritesInFull(o: Opening)
    ensures PREPARE == Write(true, Device(false, 12), Device(true, 13))
    ensures FINISH == Write(true, Device(true, 13), Device(false, 14))
    ensures PREPARE in o.Writes() <==> PrepareLanded(o)
    ensures o.Owned() <==> PrepareLanded(o) && !At(o, 7).lost
    ensures o.TriesFinish() <==> Installs(o) && Observes(o, 12)
    ensures FINISH in o.TryWrites() <==> Installs(o) && Observes(o, 12) && EndLands(o, 15, Inside(o, 14))
  {
    hide RowAfter, Opening.Handed, Prepares, PrepareLanded, Installed, Installs, EndLands, FinishLands, Exit;
    LockedFirst(o);
    NoLockNoPrepare(o);
    InstallNeedsOwner(o);
    if o.Handed().Some? {
      PrepareLaw(o);
      EnteredLaw(o);
      FinishLaw(o, 15, Inside(o, 14));
    }
  }

  lemma NoLockNoPrepare(o: Opening)
    ensures o.Handed().None? ==> !PrepareLanded(o)
  {
    hide Opening.Handed, RowAfter;
  }

  lemma InstallNeedsOwner(o: Opening)
    ensures Installed(o.script, o.start, o.device) ==> Owns(o.script, o.start, o.device)
  {
    hide RowAfter, Prepares, ChecksPass;
  }

  lemma StoppedIsNotEnded(o: Opening, k: nat)
    requires StopsAt(o, k)
    ensures !Ended(o.script, o.start, o.device)
  {
    hide RowAfter, Exit, FinishSeen, Owns;
    assert !StepGoesWell(o, k);
  }

  /** A cleanup from turn k, with the row d, succeeds by seeing the device off in turn e - 1 and recording it in e. */
  ghost predicate CleansUp(o: Opening, k: nat, d: Device) {
    exists e :: k < e <= k + 3 && SeesOff(o, k, d, e) && Unbroken(At(o, e))
  }

  lemma CleanupOutcome(o: Opening, answered: bool, k: nat, d: Device)
    requires o.Owned() && !Ended(o.script, o.start, o.device)
    requires CleanupTurn(o.script, o.start) == o.start + k && CleanupRow(o.script, o.start) == d
    ensures o.Result(answered).cleanupFailure <==> !CleansUp(o, k, d)
    ensures FINISH in o.CleanupWrites() <==> EndLands(o, k, d)
  {
    hide RowAfter, Opening.Result, Exit, SeesOff, FinishSeen, FinishTurns, Ended, Opening.Owned, CleanupTurn,
      CleanupRow, Unbroken, Intact, At, EndLands, FinishLands;
    CleanupFailsIff(o, answered);
    FinishLaw(o, k, d);
    ThreeTurnsAtMost(o, k, d);
    var e := FinishTurns(o.script, o.start + k, d) + k;
    IntactLaw(At(o, e));
    AtLaw(o, e);
  }

  /** A cleanup after a turn that does not go well, with the row found there. */
  lemma CleanupInFull(o: Opening, answered: bool, k: nat)
    requires StopsAt(o, k) && PrepareLanded(o) && !At(o, 7).lost
    ensures o.Result(answered).cleanupFailure <==> !CleansUp(o, k + 1, Inside(o, k))
    ensures FINISH in o.CleanupWrites() <==> EndLands(o, k + 1, Inside(o, k))
  {
    hide RowAfter, Opening.Result, StopsAt, PrepareLanded, CleansUp, EndLands, Ended, Inside, Opening.Owned,
      CleanupTurn, CleanupRow;
    WritesInFull(o);
    CleanupTurnLaw(o, k);
    StoppedIsNotEnded(o, k);
    CleanupOutcome(o, answered, k + 1, Inside(o, k));
  }

  /** A cleanup after a finish that did not end the maintenance, with the row that the finish left. */
  lemma CleanupAfterFinishInFull(o: Opening, answered: bool)
    requires Installs(o) && Observes(o, 12) && forall e :: !Ends(o, e)
    ensures var k, d := 15 + FinishTakes(o, 15, Inside(o, 14)), FinishLeaves(o, 15, Inside(o, 14));
            && (o.Result(answered).cleanupFailure <==> !CleansUp(o, k, d))
            && (FINISH in o.CleanupWrites() <==> EndLands(o, k, d))
  {
    hide RowAfter, Opening.Result, CleansUp, EndLands, Ended, Ends, Inside, Opening.Owned, CleanupTurn, CleanupRow,
      FinishTakes, FinishLeaves, Opening.Handed;
    WritesInFull(o);
    ExitLaw(o);
    forall k | 8 <= k < 15 ensures StepGoesWell(o, k) { StepsOfFinish(o, k); }
    CleanupAfterFinishLaw(o);
    CleanupOutcome(o, answered, 15 + FinishTakes(o, 15, Inside(o, 14)), FinishLeaves(o, 15, Inside(o, 14)));
  }

  lemma StepsOfFinish(o: Opening, k: nat)
    requires Installs(o) && Observes(o, 12) && 8 <= k < 15
    ensures StepGoesWell(o, k)
  {
    hide RowAfter, Opening.Handed;
  }

  lemma AtLaw(o: Opening, k: nat)
    ensures At(o, k) == o.script(o.start + k)
  {
  }

  lemma IntactLaw(t: Turn)
    ensures Intact(t) <==> Unbroken(t)
  {
  }

  lemma ThreeTurnsAtMost(o: Opening, k: nat, d: Device)
    ensures 1 <= FinishTurns(o.script, o.start + k, d) <= 3
  {
    hide RowAfter;
  }
}
