/** What a queue response must say to be accepted, and what is made of it, field by field. */
module ResponseLaws {
  import opened Common
  import opened PublishQueue
  import opened PublishLaws
  import opened PublishResponse

  predicate KnownState(s: string) {
    || s == "PENDING" || s == "IN_FLIGHT" || s == "FAILED_UNCONFIRMED" || s == "SUCCEEDED_CONFIRMED"
    || s == "FAILED_CONFIRMED" || s == "CANCELLED"
  }

  /** The target speaks of this request, of one of its items, and of nothing that is not known. */
  ghost predicate Speaks(t: RawTarget, expected: Request) {
    && t.queueId == expected.queueId && t.deviceId == expected.deviceId && t.accountId == expected.accountId
    && GoodText(t.targetId, 36) && KnownState(t.state)
    && (exists i :: 0 <= i < |expected.items| && t.position == Some(i) && t.item == expected.items[i])
    && (forall k :: 0 <= k < |t.taskIds| ==> GoodText(t.taskIds[k], 36))
    && (forall i, k :: 0 <= i < k < |t.taskIds| ==> t.taskIds[i] != t.taskIds[k])
    && (t.externalItemId == None || exists id :: t.externalItemId == Some(id) && GoodText(id, 64))
    && t.claimedBoundary == "HUMAN_PRICE_HUMAN_COMMIT" && t.itemBoundary == "HUMAN_PRICE_HUMAN_COMMIT"
    && t.shapeOk && !t.extraItemKeys
  }

  lemma StateLaw(s: string)
    ensures s in TARGET_STATES <==> KnownState(s)
  {
  }

  lemma TargetLaw(t: RawTarget, expected: Request)
    ensures TargetOk(t, expected) <==> Speaks(t, expected)
  {
    hide ValidText, GoodText;
    forall s, max: nat ensures ValidText(s, max) <==> GoodText(s, max) { TextLaw(s, max); }
    StateLaw(t.state);
    if TargetOk(t, expected) && t.externalItemId.Some? { assert t.externalItemId == Some(t.externalItemId.value); }
    if TargetOk(t, expected) { assert t.position == Some(t.position.value); }
    TaskIds(t.taskIds);
  }

  lemma TaskIds(ids: seq<string>)
    ensures (forall id :: id in ids ==> ValidText(id, 36)) <==> forall k :: 0 <= k < |ids| ==> GoodText(ids[k], 36)
  {
    hide ValidText, GoodText;
    forall k | 0 <= k < |ids| ensures ValidText(ids[k], 36) <==> GoodText(ids[k], 36) { TextLaw(ids[k], 36); }
  }

  /**
   * A response is accepted if and only if it names the request, has one target for each of its items, no target id
   * or position twice, and is blocked exactly when a target is in flight.
   */
  lemma AcceptanceLaw(raw: RawQueue, expected: Request)
    ensures Acceptable(Some(raw), expected) <==>
              && raw.queueId == expected.queueId && raw.deviceId == expected.deviceId
              && raw.accountId == expected.accountId && |raw.targets| == |expected.items|
              && (forall k :: 0 <= k < |raw.targets| ==> raw.targets[k].Some? && Speaks(raw.targets[k].value, expected))
              && (forall i, k :: 0 <= i < k < |raw.targets| ==>
                    && raw.targets[i].value.targetId != raw.targets[k].value.targetId
                    && raw.targets[i].value.position != raw.targets[k].value.position)
              && (raw.serialAdvanceBlocked <==>
                    exists k :: 0 <= k < |raw.targets| && raw.targets[k].value.state == "IN_FLIGHT")
  {
    hide TargetOk, Speaks;
    forall k | 0 <= k < |raw.targets| && raw.targets[k].Some?
      ensures TargetOk(raw.targets[k].value, expected) <==> Speaks(raw.targets[k].value, expected)
    {
      TargetLaw(raw.targets[k].value, expected);
    }
  }

  /** Target i of the view is what the response says about item i. */
  ghost predicate Reports(raw: RawQueue, expected: Request, i: nat, t: Target)
    requires i < |expected.items|
  {
    && t.queueId == expected.queueId && t.deviceId == expected.deviceId && t.accountId == expected.accountId
    && t.position == i && t.item == expected.items[i]
    && exists k :: 0 <= k < |raw.targets| && ReportsOf(raw.targets[k], i, t)
  }

  ghost predicate ReportsOf(r: Option<RawTarget>, i: nat, t: Target) {
    && r.Some? && r.value.position == Some(i) && t.targetId == r.value.targetId && t.state == r.value.state
    && t.taskIds == r.value.taskIds && t.externalItemId == r.value.externalItemId
  }

  lemma ViewLaw(raw: RawQueue, expected: Request, v: View)
    requires IsView(raw, expected, v)
    ensures v.queueId == expected.queueId && v.deviceId == expected.deviceId && v.accountId == expected.accountId
    ensures v.replayed == raw.replayed && v.serialAdvanceBlocked == raw.serialAdvanceBlocked
    ensures |v.targets| == |expected.items|
    ensures forall i :: 0 <= i < |v.targets| ==> Reports(raw, expected, i, v.targets[i])
  {
    hide TargetOk;
    forall i | 0 <= i < |v.targets| ensures Reports(raw, expected, i, v.targets[i]) {
      assert FromResponse(raw.targets, expected, v.targets[i]);
      var k :| 0 <= k < |raw.targets| && Corresponds(raw.targets[k], expected, v.targets[i]);
      assert TargetOk(raw.targets[k].value, expected);
      PositionKnown(raw.targets[k].value, expected);
      assert ReportsOf(raw.targets[k], i, v.targets[i]);
    }
  }

  lemma PositionKnown(t: RawTarget, expected: Request)
    requires TargetOk(t, expected)
    ensures t.position.Some? && TargetOf(t, expected).position == t.position.value
  {
  }
}
