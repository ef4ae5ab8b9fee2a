/**
 * The check of a queue response against its request (apps/web/src/data/xianyu-publish-goods.ts,
 * `parseXianyuPublishQueue`).
 */
module PublishResponse {
  import opened Common
  import opened Ordering
  import opened PublishQueue

  const BOUNDARY := "HUMAN_PRICE_HUMAN_COMMIT"
  const TARGET_STATES := {"PENDING", "IN_FLIGHT", "FAILED_UNCONFIRMED", "SUCCEEDED_CONFIRMED", "FAILED_CONFIRMED",
    "CANCELLED"}

  /**
   * A target of the response. `position` is None unless it is an integer. `shapeOk` gathers the checks on fields
   * that are neither used nor returned: boundaries, judgment, result and confirmation time.
   */
  datatype RawTarget = RawTarget(
    targetId: string, queueId: Id, deviceId: string, accountId: string, position: Option<int>, state: string,
    taskIds: seq<string>, externalItemId: Option<string>, shapeOk: bool, claimedBoundary: string,
    item: RequestItem, itemBoundary: string, extraItemKeys: bool)

  /** None for a response that is not an object, or a target that is not one. */
  datatype RawQueue = RawQueue(queueId: Id, deviceId: string, accountId: string, replayed: bool,
                               serialAdvanceBlocked: bool, targets: seq<Option<RawTarget>>)

  datatype Target = Target(targetId: string, queueId: Id, position: int, deviceId: string, accountId: string,
                           state: string,
                           item: RequestItem, taskIds: seq<string>, externalItemId: Option<string>)

  datatype View = View(queueId: Id, deviceId: string, accountId: string, replayed: bool, serialAdvanceBlocked: bool,
                       targets: seq<Target>)

  /** The checks on one target that do not look at the targets before it. */
  predicate TargetOk(t: RawTarget, expected: Request) {
    && ValidText(t.targetId, 36) && t.queueId == expected.queueId && t.deviceId == expected.deviceId
    && t.accountId == expected.accountId
    && t.position.Some? && 0 <= t.position.value < |expected.items|
    && t.state in TARGET_STATES
    && (forall id :: id in t.taskIds ==> ValidText(id, 36)) && Distinct(t.taskIds)
    && (t.externalItemId.Some? ==> ValidText(t.externalItemId.value, 64))
    && t.shapeOk && t.claimedBoundary == BOUNDARY && t.itemBoundary == BOUNDARY && !t.extraItemKeys
    && t.item == expected.items[t.position.value]
  }

  function TargetOf(t: RawTarget, expected: Request): Target
    requires TargetOk(t, expected)
  {
    Target(t.targetId, expected.queueId, t.position.value, expected.deviceId, expected.accountId, t.state,
           expected.items[t.position.value], t.taskIds, t.externalItemId)
  }

  /** t is what is returned for the raw target r. */
  ghost predicate Corresponds(r: Option<RawTarget>, expected: Request, t: Target) {
    r.Some? && TargetOk(r.value, expected) && t == TargetOf(r.value, expected)
  }

  ghost predicate FromResponse(raw: seq<Option<RawTarget>>, expected: Request, t: Target) {
    exists k :: 0 <= k < |raw| && Corresponds(raw[k], expected, t)
  }

  ghost predicate TargetsOk(raw: seq<Option<RawTarget>>, expected: Request) {
    && (forall k :: 0 <= k < |raw| ==> raw[k].Some? && TargetOk(raw[k].value, expected))
    && (forall i, k :: 0 <= i < k < |raw| ==> raw[i].value.targetId != raw[k].value.targetId)
    && (forall i, k :: 0 <= i < k < |raw| ==> raw[i].value.position != raw[k].value.position)
  }

  ghost predicate Acceptable(raw: Option<RawQueue>, expected: Request) {
    && raw.Some? && raw.value.queueId == expected.queueId && raw.value.deviceId == expected.deviceId
    && raw.value.accountId == expected.accountId
    && |raw.value.targets| == |expected.items| && TargetsOk(raw.value.targets, expected)
    && (raw.value.serialAdvanceBlocked <==>
        exists k :: 0 <= k < |raw.value.targets| && raw.value.targets[k].value.state == "IN_FLIGHT")
  }

  predicate ByPosition(a: Target, b: Target) {
    a.position <= b.position
  }

  /** `parseXianyuPublishTarget`: it also records the target id and the position. */
  method ParseTarget(raw: Option<RawTarget>, expected: Request, targetIds: set<string>, positions: set<int>)
    returns (r: Option<Target>, targetIds': set<string>, positions': set<int>)
    ensures r.Some? <==>
              && raw.Some? && TargetOk(raw.value, expected)
              && raw.value.targetId !in targetIds && raw.value.position.value !in positions
    ensures r.Some? ==> r.value == TargetOf(raw.value, expected)
                        && targetIds' == targetIds + {raw.value.targetId}
                        && positions' == positions + {raw.value.position.value}
  {
    targetIds', positions' := targetIds, positions;
    if raw.None? { return None, targetIds, positions; }
    var t := raw.value;
    if !ValidText(t.targetId, 36) || t.targetId in targetIds
       || t.queueId != expected.queueId || t.deviceId != expected.deviceId || t.accountId != expected.accountId
       || t.position.None? || t.position.value in positions || t.state !in TARGET_STATES
       || !(forall id :: id in t.taskIds ==> ValidText(id, 36)) || !Distinct(t.taskIds)
       || (t.externalItemId.Some? && !ValidText(t.externalItemId.value, 64)) || !t.shapeOk {
      return None, targetIds, positions;
    }
    if !(0 <= t.position.value < |expected.items|) { return None, targetIds, positions; }
    var item := expected.items[t.position.value];
    if t.claimedBoundary != BOUNDARY || t.item != item || t.itemBoundary != BOUNDARY || t.extraItemKeys {
      return None, targetIds, positions;
    }
    return Some(Target(t.targetId, expected.queueId, t.position.value, expected.deviceId, expected.accountId, t.state,
                       item, t.taskIds, t.externalItemId)),
           targetIds + {t.targetId}, positions + {t.position.value};
  }

  /** What an accepted response is turned into: item i of the request at position i, and nothing else. */
  ghost predicate IsView(raw: RawQueue, expected: Request, v: View) {
    && v.queueId == expected.queueId && v.deviceId == expected.deviceId && v.accountId == expected.accountId
    && v.replayed == raw.replayed && v.serialAdvanceBlocked == raw.serialAdvanceBlocked
    && |v.targets| == |expected.items|
    && (forall i :: 0 <= i < |v.targets| ==> v.targets[i].position == i && v.targets[i].item == expected.items[i])
    && (forall i :: 0 <= i < |v.targets| ==> FromResponse(raw.targets, expected, v.targets[i]))
  }

  ghost predicate ParsedUpTo(raw: seq<Option<RawTarget>>, expected: Request, n: nat, targets: seq<Target>,
                             targetIds: set<string>, positions: set<int>) {
    && n <= |raw| && |targets| == n && TargetsOk(raw[..n], expected)
    && (forall k :: 0 <= k < n ==> targets[k] == TargetOf(raw[k].value, expected))
    && (forall id :: id in targetIds <==> exists k :: 0 <= k < n && raw[k].value.targetId == id)
    && (forall p :: p in positions <==> exists k :: 0 <= k < n && raw[k].value.position.value == p)
  }

  lemma ParsedOneMore(raw: seq<Option<RawTarget>>, expected: Request, n: nat, targets: seq<Target>,
                      targetIds: set<string>, positions: set<int>)
    requires ParsedUpTo(raw, expected, n, targets, targetIds, positions) && n < |raw|
    requires raw[n].Some? && TargetOk(raw[n].value, expected) && raw[n].value.targetId !in targetIds
             && raw[n].value.position.value !in positions
    ensures ParsedUpTo(raw, expected, n + 1, targets + [TargetOf(raw[n].value, expected)],
                       targetIds + {raw[n].value.targetId}, positions + {raw[n].value.position.value})
  {
    hide TargetOk;
    forall k | 0 <= k < n ensures raw[..n][k] == raw[k] && raw[k].Some? && TargetOk(raw[k].value, expected) {}
    PositionGiven(raw[n].value, expected);
    forall k | 0 <= k < n ensures raw[k].value.position.Some? { PositionGiven(raw[k].value, expected); }
  }

  lemma PositionGiven(t: RawTarget, expected: Request)
    requires TargetOk(t, expected)
    ensures t.position.Some? && 0 <= t.position.value < |expected.items| && t.item == expected.items[t.position.value]
  {
  }

  lemma RefusedTarget(raw: seq<Option<RawTarget>>, expected: Request, n: nat, targets: seq<Target>,
                      targetIds: set<string>, positions: set<int>)
    requires ParsedUpTo(raw, expected, n, targets, targetIds, positions) && n < |raw|
    requires !(raw[n].Some? && TargetOk(raw[n].value, expected) && raw[n].value.targetId !in targetIds
               && raw[n].value.position.value !in positions)
    ensures !TargetsOk(raw, expected)
  {
    hide TargetOk;
    if raw[n].Some? && TargetOk(raw[n].value, expected) {
      PositionGiven(raw[n].value, expected);
      forall k | 0 <= k < n ensures raw[..n][k] == raw[k] && raw[k].Some? && raw[k].value.position.Some? {
        PositionGiven(raw[k].value, expected);
      }
    }
  }

  /** n distinct positions below n, sorted, are 0, 1, …, n - 1. */
  lemma {:induction false} SortedPositions(s: seq<Target>, n: nat)
    requires |s| == n && SortedBy(ByPosition, s)
    requires forall k :: 0 <= k < n ==> 0 <= s[k].position < n
    requires forall i, k :: 0 <= i < k < n ==> s[i].position != s[k].position
    ensures forall k :: 0 <= k < n ==> s[k].position == k
  {
    forall i, k | 0 <= i < k < n ensures s[i].position < s[k].position { assert ByPosition(s[i], s[k]); }
    forall k | 0 <= k < n ensures s[k].position == k {
      Climbing(s, 0, k);
      Climbing(s, k, n - 1);
    }
  }

  lemma {:induction false} Climbing(s: seq<Target>, i: nat, k: nat)
    requires i <= k < |s| && forall a, b :: 0 <= a < b < |s| ==> s[a].position < s[b].position
    ensures s[k].position >= s[i].position + (k - i)
  {
    if i < k { Climbing(s, i, k - 1); }
  }

  /** A permutation keeps positions distinct. */
  lemma PermutedPositions(a: seq<Target>, b: seq<Target>)
    requires multiset(a) == multiset(b) && forall i, k :: 0 <= i < k < |a| ==> a[i].position != a[k].position
    ensures |a| == |b| && forall i, k :: 0 <= i < k < |b| ==> b[i].position != b[k].position
  {
    SameElements(a, b);
    assert Distinct(a);
    DistinctFromMultiset(a, b);
    forall i, k | 0 <= i < k < |b| ensures b[i].position != b[k].position {
      assert b[i] in a && b[k] in a && b[i] != b[k];
    }
  }

  lemma CorrespondsFacts(r: Option<RawTarget>, expected: Request, t: Target)
    requires Corresponds(r, expected, t)
    ensures r.Some? && r.value.position == Some(t.position) && r.value.state == t.state
    ensures 0 <= t.position < |expected.items| && t.item == expected.items[t.position]
  {
  }

  lemma SortedTargets(raw: RawQueue, expected: Request, targets: seq<Target>)
    requires |raw.targets| == |expected.items| == |targets| && TargetsOk(raw.targets, expected)
    requires forall k :: 0 <= k < |targets| ==> Corresponds(raw.targets[k], expected, targets[k])
    ensures var sorted := SortBy(ByPosition, targets);
            && |sorted| == |expected.items|
            && (forall i :: 0 <= i < |sorted| ==> sorted[i].position == i && sorted[i].item == expected.items[i])
            && (forall i :: 0 <= i < |sorted| ==> FromResponse(raw.targets, expected, sorted[i]))
  {
    hide TargetOk, Corresponds;
    var sorted := SortBy(ByPosition, targets);
    SortBySorts(ByPosition, targets);
    SameElements(sorted, targets);
    forall k | 0 <= k < |targets|
      ensures raw.targets[k].Some? && raw.targets[k].value.position == Some(targets[k].position)
    {
      CorrespondsFacts(raw.targets[k], expected, targets[k]);
    }
    PermutedPositions(targets, sorted);
    forall i | 0 <= i < |sorted|
      ensures 0 <= sorted[i].position < |sorted| && sorted[i].item == expected.items[sorted[i].position]
      ensures FromResponse(raw.targets, expected, sorted[i])
    {
      assert sorted[i] in targets;
      var k :| 0 <= k < |targets| && targets[k] == sorted[i];
      CorrespondsFacts(raw.targets[k], expected, targets[k]);
    }
    SortedPositions(sorted, |sorted|);
  }

  /**
   * The response is accepted exactly when it is acceptable, and an accepted response yields one target per
   * requested item: position i carries item i.
   */
  method ParseQueue(raw: Option<RawQueue>, expected: Request) returns (r: Option<View>)
    ensures r.Some? <==> Acceptable(raw, expected)
    ensures r.Some? ==> IsView(raw.value, expected, r.value)
  {
    hide TargetsOk, TargetOk, ParsedUpTo, Corresponds, FromResponse, SortBy;
    if raw.None? || raw.value.queueId != expected.queueId || raw.value.deviceId != expected.deviceId
       || raw.value.accountId != expected.accountId || |raw.value.targets| != |expected.items| {
      return None;
    }
    var targets, ok := ParseTargets(raw.value, expected);
    if !ok { return None; }
    var blocked := exists k :: 0 <= k < |targets| && targets[k].state == "IN_FLIGHT";
    SameStates(raw.value, expected, targets);
    if raw.value.serialAdvanceBlocked != blocked { return None; }
    SortedTargets(raw.value, expected, targets);
    return Some(View(expected.queueId, expected.deviceId, expected.accountId, raw.value.replayed,
                     raw.value.serialAdvanceBlocked,
                     SortBy(ByPosition, targets)));
  }

  lemma SameStates(raw: RawQueue, expected: Request, targets: seq<Target>)
    requires |targets| == |raw.targets| && forall k :: 0 <= k < |targets| ==>
             Corresponds(raw.targets[k], expected, targets[k])
    ensures forall k :: 0 <= k < |targets| ==> raw.targets[k].Some? && raw.targets[k].value.state == targets[k].state
  {
  }

  method ParseTargets(raw: RawQueue, expected: Request) returns (targets: seq<Target>, ok: bool)
    ensures ok <==> TargetsOk(raw.targets, expected)
    ensures ok ==> |targets| == |raw.targets|
    ensures ok ==> forall k :: 0 <= k < |targets| ==> Corresponds(raw.targets[k], expected, targets[k])
  {
    hide TargetOk, TargetsOk, ParsedUpTo;
    targets, ok := [], true;
    var targetIds: set<string>, positions: set<int> := {}, {};
    NoneParsed(raw.targets, expected);
    for n := 0 to |raw.targets|
      invariant ok && ParsedUpTo(raw.targets, expected, n, targets, targetIds, positions)
    {
      var t, ids, taken := ParseTarget(raw.targets[n], expected, targetIds, positions);
      if t.None? {
        RefusedTarget(raw.targets, expected, n, targets, targetIds, positions);
        return targets, false;
      }
      ParsedOneMore(raw.targets, expected, n, targets, targetIds, positions);
      targets, targetIds, positions := targets + [t.value], ids, taken;
    }
    AllParsed(raw.targets, expected, targets, targetIds, positions);
  }

  lemma NoneParsed(raw: seq<Option<RawTarget>>, expected: Request)
    ensures ParsedUpTo(raw, expected, 0, [], {}, {})
  {
  }

  lemma AllParsed(raw: seq<Option<RawTarget>>, expected: Request, targets: seq<Target>, targetIds: set<string>,
                  positions: set<int>)
    requires ParsedUpTo(raw, expected, |raw|, targets, targetIds, positions)
    ensures TargetsOk(raw, expected) && |targets| == |raw|
    ensures forall k :: 0 <= k < |targets| ==> Corresponds(raw[k], expected, targets[k])
  {
    hide TargetOk;
    assert raw[..|raw|] == raw;
  }
}
