/**
 * How far a maintenance window comes, as decided by the turns alone: which turns must go well, and what the device
 * row is when they are answered. The window takes its turns in a fixed order from `start`: candidate (0), status and
 * acquire (1, 2), checks (3 to 5), snapshot and request of the prepare (6, 7), checks (8 to 10), install (11),
 * observation (12 to 14), finish (from 15), observation, checks and the release.
 */
module WindowCourse {
  import opened Common
  import opened WindowRecords

  // ----- the device row while the window leaves it alone -----

  /** The row after these requests of others. */
  function Served(d: Device, requests: seq<Request>): Device {
    if requests == [] then d
    else
      var row := Served(d, Init(requests));
      var served := Serve(row, Last(requests));
      if served.Some? then served.value else row
  }

  /** The row after the others' requests of turns a to b - 1. */
  function RowAfter(script: Script, d: Device, a: nat, b: nat): Device {
    if b <= a then d else Served(RowAfter(script, d, a, b - 1), script(b - 1).requests)
  }

  lemma {:induction false} RowCompose(script: Script, d: Device, a: nat, b: nat, c: nat)
    requires a <= b <= c
    ensures RowAfter(script, RowAfter(script, d, a, b), b, c) == RowAfter(script, d, a, c)
  {
    if b < c { RowCompose(script, d, a, b, c - 1); }
  }

  lemma RowOne(script: Script, d: Device, a: nat)
    ensures RowAfter(script, d, a, a) == d && RowAfter(script, d, a, a + 1) == Served(d, script(a).requests)
  {
    assert RowAfter(script, d, a, a) == d;
  }

  lemma {:induction false} ServedVersion(d: Device, requests: seq<Request>)
    ensures Served(d, requests).version >= d.version
    ensures Served(d, requests).version == d.version ==> Served(d, requests) == d
  {
    if requests != [] { ServedVersion(d, Init(requests)); }
  }

  /** Others can only change the row by raising its version. */
  lemma {:induction false} RowVersion(script: Script, d: Device, a: nat, b: nat)
    requires a <= b
    ensures RowAfter(script, d, a, b).version >= d.version
    ensures RowAfter(script, d, a, b).version == d.version ==> RowAfter(script, d, a, b) == d
  {
    if a < b {
      RowVersion(script, d, a, b - 1);
      ServedVersion(RowAfter(script, d, a, b - 1), script(b - 1).requests);
    }
  }

  // ----- the steps -----

  predicate Intact(t: Turn) {
    !t.fails && !t.lost && !t.saveFails
  }

  predicate Answered(t: Turn) {
    !t.fails && !t.lost
  }

  /** A snapshot that shows exactly this row, with identity and occupancy as required. */
  predicate GateOpen(t: Turn, row: Device, expected: Device) {
    Answered(t) && ValidCloud(Snapshot(row, t.identityOk, t.idle), expected)
  }

  /** Local checks, a gate and the record of it, in three turns from s, where the row is d. */
  predicate ChecksPass(script: Script, s: nat, d: Device, expected: Device) {
    && Intact(script(s))
    && GateOpen(script(s + 1), RowAfter(script, d, s, s + 2), expected)
    && Intact(script(s + 2))
  }

  /** The turns that this takes. */
  function ChecksTurns(script: Script, s: nat, d: Device, expected: Device): nat {
    if !Intact(script(s)) then 1
    else if !GateOpen(script(s + 1), RowAfter(script, d, s, s + 2), expected) then 2
    else 3
  }

  /** A request at turn s is accepted: it arrives, no lease is active, and the row is still d. */
  predicate Lands(script: Script, s: nat, d: Device) {
    !script(s).fails && !script(s).leased && RowAfter(script, d, s, s + 1) == d
  }

  /** `prepare-cas` from turn s takes effect. */
  predicate PrepareLands(script: Script, s: nat, d: Device) {
    GateOpen(script(s), RowAfter(script, d, s, s + 1), BEFORE) && Lands(script, s + 1, BEFORE)
  }

  /** An observation from turn s comes to its end. */
  predicate ObservationEnds(script: Script, s: nat) {
    Intact(script(s)) && Answered(script(s + 1)) && Intact(script(s + 2))
  }

  function ObservationTurns(script: Script, s: nat): nat {
    if !Intact(script(s)) then 1 else if !Answered(script(s + 1)) then 2 else 3
  }

  function ObservationOf(script: Script, s: nat, d: Device, expected: Device): Observation {
    var t, look := script(s), script(s + 1);
    var row := RowAfter(script, d, s, s + 2);
    Observation(t.heartbeats, t.deferrals, t.healthy, ValidCloud(Snapshot(row, look.identityOk, look.idle), expected))
  }

  /** The snapshot at turn s is that of the right device. */
  predicate Identified(t: Turn) {
    Answered(t) && t.identityOk
  }

  /** `finish-owned` from turn s finds the device in maintenance and changes it. */
  predicate FinishLands(script: Script, s: nat, d: Device) {
    Identified(script(s)) && RowAfter(script, d, s, s + 1) == DURING && Lands(script, s + 1, DURING)
  }

  /** `finish-owned` from turn s answers with the device at off, version 14. */
  predicate FinishSeen(script: Script, s: nat, d: Device) {
    || (Identified(script(s)) && RowAfter(script, d, s, s + 1) == AFTER)
    || (FinishLands(script, s, d) && !script(s + 1).lost
        && Identified(script(s + 2)) && RowAfter(script, AFTER, s + 2, s + 3) == AFTER)
  }

  /** The turns that `finish-owned` takes, and the row it leaves behind. */
  function FinishTurns(script: Script, s: nat, d: Device): nat {
    if !Identified(script(s)) || RowAfter(script, d, s, s + 1) != DURING then 1
    else if !FinishLands(script, s, d) || script(s + 1).lost then 2
    else 3
  }

  function FinishRow(script: Script, s: nat, d: Device): Device {
    if FinishLands(script, s, d) then RowAfter(script, AFTER, s + 2, s + FinishTurns(script, s, d))
    else RowAfter(script, d, s, s + FinishTurns(script, s, d))
  }

  /** `cleanup_maintenance` from turn s succeeds. */
  predicate CleanupPasses(script: Script, s: nat, d: Device) {
    FinishSeen(script, s, d) && Intact(script(s + FinishTurns(script, s, d)))
  }

  // ----- the window: turns from start, where the row is d -----

  predicate Preflighted(script: Script, start: nat, d: Device) {
    ChecksPass(script, start + 3, RowAfter(script, d, start, start + 3), BEFORE)
  }

  /** The window's prepare takes effect. */
  predicate Prepares(script: Script, start: nat, d: Device) {
    Preflighted(script, start, d) && PrepareLands(script, start + 6, RowAfter(script, d, start, start + 6))
  }

  /** And its answer arrives. */
  predicate Owns(script: Script, start: nat, d: Device) {
    Prepares(script, start, d) && !script(start + 7).lost
  }

  predicate Entered(script: Script, start: nat, d: Device) {
    Owns(script, start, d) && ChecksPass(script, start + 8, DURING, DURING)
  }

  predicate Installed(script: Script, start: nat, d: Device) {
    Entered(script, start, d) && Intact(script(start + 11))
  }

  /** The row after the others' requests since the prepare. */
  function RowInside(script: Script, start: nat, turn: nat): Device {
    RowAfter(script, DURING, start + 8, turn)
  }

  /** The turn after `finish-owned`. */
  function Exit(script: Script, start: nat): nat {
    start + 15 + FinishTurns(script, start + 15, RowInside(script, start, start + 15))
  }

  /** The finish is answered with an idle device at off, version 14. */
  predicate Ended(script: Script, start: nat, d: Device) {
    && Installed(script, start, d) && ObservationEnds(script, start + 12)
    && FinishSeen(script, start + 15, RowInside(script, start, start + 15))
    && script(Exit(script, start) - 1).idle
  }

  predicate Finished(script: Script, start: nat, d: Device) {
    Ended(script, start, d) && Intact(script(Exit(script, start)))
  }

  /** The row after the others' requests since the finish was seen. */
  function RowOutside(script: Script, start: nat, turn: nat): Device {
    RowAfter(script, AFTER, Exit(script, start), turn)
  }

  /** Where an owner that has not ended the maintenance stops, and the row it finds there. */
  function CleanupTurn(script: Script, start: nat): nat {
    if !ChecksPass(script, start + 8, DURING, DURING) then start + 8 + ChecksTurns(script, start + 8, DURING, DURING)
    else if !Intact(script(start + 11)) then start + 12
    else if !ObservationEnds(script, start + 12) then start + 12 + ObservationTurns(script, start + 12)
    else Exit(script, start)
  }

  function CleanupRow(script: Script, start: nat): Device {
    if !ChecksPass(script, start + 8, DURING, DURING) || !Intact(script(start + 11)) then
      RowInside(script, start, CleanupTurn(script, start))
    else if !ObservationEnds(script, start + 12) then RowInside(script, start, CleanupTurn(script, start))
    else FinishRow(script, start + 15, RowInside(script, start, start + 15))
  }

  /** Every stage is passed. */
  predicate Complete(script: Script, start: nat, d: Device) {
    var outside := Exit(script, start) + 1;
    && Finished(script, start, d) && ObservationEnds(script, outside)
    && ChecksPass(script, outside + 3, RowOutside(script, start, outside + 3), AFTER)
  }

  predicate Recovery(script: Script, start: nat, d: Device) {
    && Installed(script, start, d) && ObservationEnds(script, start + 12)
    && ValidObservation(ObservationOf(script, start + 12, RowInside(script, start, start + 12), DURING), true)
  }

  predicate Presence(script: Script, start: nat, d: Device) {
    var outside := Exit(script, start) + 1;
    && Finished(script, start, d) && ObservationEnds(script, outside)
    && ValidObservation(ObservationOf(script, outside, RowOutside(script, start, outside), AFTER), false)
  }

  /** The number of stages passed, given whether the lock was handed over. */
  function StagesPassed(locked: bool, script: Script, start: nat, d: Device): (n: nat)
    ensures n <= 7
  {
    if !locked then if Intact(script(start)) then 1 else 0
    else if Complete(script, start, d) then 7
    else if Finished(script, start, d) then 6
    else if Installed(script, start, d) then 5
    else if Entered(script, start, d) then 4
    else if Preflighted(script, start, d) then 3
    else 2
  }
}
