/** What interleaved runs of the publish-queue calls keep, and exactly when a retry record is permanent. */
module PublishRuns {
  import opened Common
  import opened PublishQueue

  /** The first `limit` ids of the supply are version-4 UUIDs without repetition. */
  ghost predicate FreshIds(supply: nat -> Id, limit: nat) {
    && (forall m: nat, n: nat :: m < n < limit ==> supply(m) != supply(n))
    && (forall n: nat :: n < limit ==> IsUuid(supply(n)))
  }

  ghost predicate Injective(fp: Fingerprint) {
    forall a, b :: fp(a) == fp(b) ==> a == b
  }

  datatype Op = Begin(id: nat, call: Call) | Commit(id: nat, write: Write)

  /**
   * The tab, the calls that are awaiting, and for the statements below: what each minted id was for, and what was
   * returned.
   */
  datatype Sys = Sys(storage: Storage, next: nat, pending: map<nat, (Call, Pending)>, minted: map<nat, Call>,
                     results: seq<(Call, Request)>)

  const IDLE := Sys(map[], 0, map[], map[], [])

  function CallKey(fp: Fingerprint, c: Call): Key
    requires c.scope.Some?
  {
    KeyOf(fp, c.scope.value, c.input, c.productIds)
  }

  function Do(fp: Fingerprint, supply: nat -> Id, s: Sys, op: Op): Sys {
    match op
    case Begin(id, c) =>
      if id in s.pending then s
      else
        var (next, p) := BeginStep(fp, supply, s.storage, s.next, c);
        if p.None? then s
        else s.(next := next, pending := s.pending[id := (c, p.value)],
                minted := if p.value.created then s.minted[s.next := c] else s.minted)
    case Commit(id, w) =>
      if id !in s.pending then s
      else
        var (c, p) := s.pending[id];
        var (storage, r) := CommitStep(s.storage, p, w);
        s.(storage := storage, pending := s.pending - {id},
           results := s.results + (if r.Some? then [(c, r.value)] else []))
  }

  function Run(fp: Fingerprint, supply: nat -> Id, ops: seq<Op>): Sys {
    if ops == [] then IDLE else Do(fp, supply, Run(fp, supply, Init(ops)), Last(ops))
  }

  // ----- invariants of every run, overlapping or not -----

  /** The stored text was minted for this key. */
  ghost predicate MintedFor(fp: Fingerprint, supply: nat -> Id, s: Sys, key: Key, stored: Stored, n: nat) {
    && n in s.minted && s.minted[n].scope.Some? && CallKey(fp, s.minted[n]) == key
    && stored == Json(PublishQueue.Minted(fp, supply, key, n, s.minted[n].input))
  }

  ghost predicate Genuine(fp: Fingerprint, supply: nat -> Id, s: Sys, key: Key, stored: Stored) {
    exists n :: MintedFor(fp, supply, s, key, stored, n)
  }

  /** The request is the one that the stored record stands for. */
  ghost predicate Answers(c: Call, stored: Stored, r: Request) {
    && stored.Json? && |stored.record.deliveryIds| == |c.input.items|
    && r == RequestOf(c.input, stored.record.queueId, stored.record.deliveryIds)
  }

  ghost predicate PendingOk(fp: Fingerprint, supply: nat -> Id, s: Sys, id: nat)
    requires id in s.pending
  {
    var (c, p) := s.pending[id];
    && c.scope.Some? && p.key == CallKey(fp, c) && Genuine(fp, supply, s, p.key, p.serialized)
    && Answers(c, p.serialized, p.request)
    && (p.created ==> (forall k :: k in s.storage ==> s.storage[k] != p.serialized)
                      && (forall other :: other in s.pending && other != id ==>
                          s.pending[other].1.serialized != p.serialized))
  }

  ghost predicate ResultOk(fp: Fingerprint, supply: nat -> Id, s: Sys, c: Call, r: Request) {
    c.scope.Some?
    && exists n :: n in s.minted && s.minted[n].scope.Some? && CallKey(fp, s.minted[n]) == CallKey(fp, c)
                   && r.queueId == supply(n)
  }

  ghost predicate Invariant(fp: Fingerprint, supply: nat -> Id, s: Sys) {
    && (forall n :: n in s.minted ==> n + Deliveries(s.minted[n].input.items) < s.next)
    && (forall k :: k in s.storage ==> Genuine(fp, supply, s, k, s.storage[k]))
    && (forall id :: id in s.pending ==> PendingOk(fp, supply, s, id))
    && (forall k :: 0 <= k < |s.results| ==> ResultOk(fp, supply, s, s.results[k].0, s.results[k].1))
  }

  lemma GenuineGrows(fp: Fingerprint, supply: nat -> Id, s: Sys, s': Sys, key: Key, stored: Stored)
    requires Genuine(fp, supply, s, key, stored) && forall n :: n in s.minted ==>
             n in s'.minted && s'.minted[n] == s.minted[n]
    ensures Genuine(fp, supply, s', key, stored)
  {
    var n :| MintedFor(fp, supply, s, key, stored, n);
    assert MintedFor(fp, supply, s', key, stored, n);
  }

  lemma ResultGrows(fp: Fingerprint, supply: nat -> Id, s: Sys, s': Sys, c: Call, r: Request)
    requires ResultOk(fp, supply, s, c, r) && forall n :: n in s.minted ==>
             n in s'.minted && s'.minted[n] == s.minted[n]
    ensures ResultOk(fp, supply, s', c, r)
  {
    var n :| n in s.minted && s.minted[n].scope.Some? && CallKey(fp, s.minted[n]) == CallKey(fp, c)
      && r.queueId == supply(n);
    assert n in s'.minted;
  }

  /** A text minted now differs from every genuine one. */
  lemma NewTextIsNew(fp: Fingerprint, supply: nat -> Id, s: Sys, key: Key, stored: Stored, newKey: Key, input: Input)
    requires FreshIds(supply, s.next + 1) && (forall n :: n in s.minted ==> n < s.next)
             && Genuine(fp, supply, s, key, stored)
    ensures stored != Json(PublishQueue.Minted(fp, supply, newKey, s.next, input))
  {
    var n :| MintedFor(fp, supply, s, key, stored, n);
    assert supply(n) != supply(s.next);
  }

  /** The call was free to start and is now awaiting. */
  predicate Starts(fp: Fingerprint, supply: nat -> Id, s: Sys, id: nat, c: Call) {
    id !in s.pending && BeginStep(fp, supply, s.storage, s.next, c).1.Some?
  }

  lemma AwaitingStays(fp: Fingerprint, supply: nat -> Id, s: Sys, id: nat, c: Call, other: nat)
    requires Invariant(fp, supply, s) && Starts(fp, supply, s, id, c) && other in s.pending
    requires FreshIds(supply, Do(fp, supply, s, Begin(id, c)).next)
    ensures PendingOk(fp, supply, Do(fp, supply, s, Begin(id, c)), other)
  {
    hide FreshIds, RecordOk, ValidInput, ValidScope, PublishQueue.Minted, RequestOf, Genuine, ResultOk, CallKey,
      Answers;
    var s' := Do(fp, supply, s, Begin(id, c));
    var p := BeginStep(fp, supply, s.storage, s.next, c).1.value;
    BegunIsGenuine(fp, supply, s, id, c);
    assert PendingOk(fp, supply, s, other);
    var op := s.pending[other].1;
    GenuineGrows(fp, supply, s, s', op.key, op.serialized);
    if p.created {
      FewerFresh(supply, s.next + 1, s'.next);
      NewTextIsNew(fp, supply, s, op.key, op.serialized, p.key, c.input);
    }
  }

  lemma StartedIsOk(fp: Fingerprint, supply: nat -> Id, s: Sys, id: nat, c: Call)
    requires Invariant(fp, supply, s) && Starts(fp, supply, s, id, c)
    requires FreshIds(supply, Do(fp, supply, s, Begin(id, c)).next)
    ensures PendingOk(fp, supply, Do(fp, supply, s, Begin(id, c)), id)
  {
    hide FreshIds, RecordOk, ValidInput, ValidScope, PublishQueue.Minted, RequestOf, Genuine, ResultOk, CallKey,
      Answers;
    var s' := Do(fp, supply, s, Begin(id, c));
    var p := BeginStep(fp, supply, s.storage, s.next, c).1.value;
    BegunIsGenuine(fp, supply, s, id, c);
    if p.created {
      FewerFresh(supply, s.next + 1, s'.next);
      forall k | k in s.storage
        ensures s.storage[k] != p.serialized
      {
        NewTextIsNew(fp, supply, s, k, s.storage[k], p.key, c.input);
      }
      forall other | other in s.pending ensures s.pending[other].1.serialized != p.serialized {
        assert PendingOk(fp, supply, s, other);
        NewTextIsNew(fp, supply, s, s.pending[other].1.key, s.pending[other].1.serialized, p.key, c.input);
      }
    }
  }

  lemma BeginKeepsInvariant(fp: Fingerprint, supply: nat -> Id, s: Sys, id: nat, c: Call)
    requires Invariant(fp, supply, s) && FreshIds(supply, Do(fp, supply, s, Begin(id, c)).next)
    ensures Invariant(fp, supply, Do(fp, supply, s, Begin(id, c)))
  {
    hide FreshIds, RecordOk, ValidInput, ValidScope, PublishQueue.Minted, RequestOf, Genuine, ResultOk, PendingOk;
    var s' := Do(fp, supply, s, Begin(id, c));
    if Starts(fp, supply, s, id, c) {
      forall k | k in s.storage
        ensures Genuine(fp, supply, s', k, s.storage[k])
      {
        GenuineGrows(fp, supply, s, s', k, s.storage[k]);
      }
      forall k | 0 <= k < |s.results| ensures ResultOk(fp, supply, s', s.results[k].0, s.results[k].1) {
        ResultGrows(fp, supply, s, s', s.results[k].0, s.results[k].1);
      }
      forall other | other in s.pending
        ensures PendingOk(fp, supply, s', other)
      {
        AwaitingStays(fp, supply, s, id, c, other);
      }
      StartedIsOk(fp, supply, s, id, c);
    }
  }

  lemma FewerFresh(supply: nat -> Id, fewer: nat, limit: nat)
    requires FreshIds(supply, limit) && fewer <= limit
    ensures FreshIds(supply, fewer)
  {
  }

  lemma BegunIsGenuine(fp: Fingerprint, supply: nat -> Id, s: Sys, id: nat, c: Call)
    requires Invariant(fp, supply, s) && id !in s.pending
    requires BeginStep(fp, supply, s.storage, s.next, c).1.Some?
    ensures var p := BeginStep(fp, supply, s.storage, s.next, c).1.value; var s' := Do(fp, supply, s, Begin(id, c));
            c.scope.Some? && p.key == CallKey(fp, c) && Genuine(fp, supply, s', p.key, p.serialized)
              && Answers(c, p.serialized, p.request)
            && BeginStep(fp, supply, s.storage, s.next, c).0 >= s.next
            && (p.created ==> BeginStep(fp, supply, s.storage, s.next, c).0 > s.next)
            && (p.created ==> p.serialized == Json(PublishQueue.Minted(fp, supply, p.key, s.next, c.input)))
            && (!p.created ==> p.key in s.storage && p.serialized == s.storage[p.key])
  {
    var p := BeginStep(fp, supply, s.storage, s.next, c).1.value;
    var s' := Do(fp, supply, s, Begin(id, c));
    if p.created {
      assert MintedFor(fp, supply, s', p.key, p.serialized, s.next);
    } else {
      GenuineGrows(fp, supply, s, s', p.key, s.storage[p.key]);
    }
  }

  lemma MintedQueueId(fp: Fingerprint, supply: nat -> Id, s: Sys, c: Call, p: Pending, n: nat)
    requires MintedFor(fp, supply, s, p.key, p.serialized, n) && Answers(c, p.serialized, p.request)
    ensures p.request.queueId == supply(n)
  {
  }

  lemma PendingAnswer(fp: Fingerprint, supply: nat -> Id, s: Sys, id: nat)
    requires id in s.pending && PendingOk(fp, supply, s, id)
    ensures ResultOk(fp, supply, s, s.pending[id].0, s.pending[id].1.request)
  {
    hide RequestOf, PublishQueue.Minted, CallKey, Answers;
    var (c, p) := s.pending[id];
    var n :| MintedFor(fp, supply, s, p.key, p.serialized, n);
    MintedQueueId(fp, supply, s, c, p, n);
  }

  lemma CommitKeepsInvariant(fp: Fingerprint, supply: nat -> Id, s: Sys, id: nat, w: Write)
    requires Invariant(fp, supply, s)
    ensures Invariant(fp, supply, Do(fp, supply, s, Commit(id, w)))
  {
    hide RequestOf, PublishQueue.Minted, CallKey, Genuine, ResultOk, Answers;
    var s' := Do(fp, supply, s, Commit(id, w));
    if id in s.pending {
      var (c, p) := s.pending[id];
      assert PendingOk(fp, supply, s, id);
      PendingAnswer(fp, supply, s, id);
      GenuineGrows(fp, supply, s, s', p.key, p.serialized);
      forall k | k in s.storage
        ensures Genuine(fp, supply, s', k, s.storage[k])
      {
        GenuineGrows(fp, supply, s, s', k, s.storage[k]);
      }
      forall other | other in s'.pending ensures PendingOk(fp, supply, s', other) {
        assert PendingOk(fp, supply, s, other);
        GenuineGrows(fp, supply, s, s', s.pending[other].1.key, s.pending[other].1.serialized);
      }
      forall k | 0 <= k < |s'.results| ensures ResultOk(fp, supply, s', s'.results[k].0, s'.results[k].1) {
        if k < |s.results| { ResultGrows(fp, supply, s, s', s.results[k].0, s.results[k].1); }
        else { ResultGrows(fp, supply, s, s', c, p.request); }
      }
    }
  }

  /** The run draws only ids that are fresh: as many as it used. */
  ghost predicate FreshRun(fp: Fingerprint, supply: nat -> Id, ops: seq<Op>) {
    FreshIds(supply, Run(fp, supply, ops).next)
  }

  lemma StepNext(fp: Fingerprint, supply: nat -> Id, s: Sys, op: Op)
    ensures Do(fp, supply, s, op).next >= s.next
  {
    hide RecordOk, ValidInput, ValidScope, PublishQueue.Minted, RequestOf;
  }

  lemma {:induction false} PrefixIsFresh(fp: Fingerprint, supply: nat -> Id, ops: seq<Op>, k: nat)
    requires FreshRun(fp, supply, ops) && k <= |ops|
    ensures FreshRun(fp, supply, ops[..k])
    decreases |ops|
  {
    hide Do;
    if k == |ops| {
      assert ops[..k] == ops;
    } else {
      StepNext(fp, supply, Run(fp, supply, Init(ops)), Last(ops));
      FewerFresh(supply, Run(fp, supply, Init(ops)).next, Run(fp, supply, ops).next);
      PrefixIsFresh(fp, supply, Init(ops), k);
      assert Init(ops)[..k] == ops[..k];
    }
  }

  lemma {:induction false} RunKeepsInvariant(fp: Fingerprint, supply: nat -> Id, ops: seq<Op>)
    requires FreshRun(fp, supply, ops)
    ensures Invariant(fp, supply, Run(fp, supply, ops))
  {
    hide FreshIds, Invariant, Do;
    if ops == [] {
      IdleInvariant(fp, supply);
    } else {
      PrefixIsFresh(fp, supply, ops, |ops| - 1);
      RunKeepsInvariant(fp, supply, Init(ops));
      match Last(ops)
      case Begin(id, c) => BeginKeepsInvariant(fp, supply, Run(fp, supply, Init(ops)), id, c);
      case Commit(id, w) => CommitKeepsInvariant(fp, supply, Run(fp, supply, Init(ops)), id, w);
    }
  }

  lemma IdleInvariant(fp: Fingerprint, supply: nat -> Id)
    ensures Invariant(fp, supply, IDLE)
  {
  }

  // ----- queue ids belong to one scope and input -----

  predicate SamePurpose(a: Call, b: Call) {
    a.scope == b.scope && a.input == b.input && a.productIds == b.productIds
  }

  lemma KeysTellPurposes(fp: Fingerprint, a: Call, b: Call)
    requires Injective(fp) && a.scope.Some? && b.scope.Some?
    ensures CallKey(fp, a) == CallKey(fp, b) <==> SamePurpose(a, b)
  {
    assert fp(ScopeValue(a.scope.value)) == fp(ScopeValue(b.scope.value)) ==>
           ScopeValue(a.scope.value) == ScopeValue(b.scope.value);
    assert fp(RequestValue(a.productIds, a.input)) == fp(RequestValue(b.productIds, b.input)) ==>
        RequestValue(a.productIds, a.input) == RequestValue(b.productIds, b.input);
  }

  /** Requests returned for different scopes or inputs never share a queue id, even when calls overlap. */
  lemma QueueIdsNeverShared(fp: Fingerprint, supply: nat -> Id, ops: seq<Op>, i: nat, j: nat)
    requires FreshRun(fp, supply, ops) && Injective(fp)
    requires var results := Run(fp, supply, ops).results;
             i < |results| && j < |results| && !SamePurpose(results[i].0, results[j].0)
    ensures Run(fp, supply, ops).results[i].1.queueId != Run(fp, supply, ops).results[j].1.queueId
  {
    hide Injective, Do, CallKey, SamePurpose;
    RunKeepsInvariant(fp, supply, ops);
    var s := Run(fp, supply, ops);
    var (a, r) := s.results[i];
    var (b, q) := s.results[j];
    assert ResultOk(fp, supply, s, a, r) && ResultOk(fp, supply, s, b, q);
    KeysTellPurposes(fp, a, b);
    var m :| m in s.minted && s.minted[m].scope.Some? && CallKey(fp, s.minted[m]) == CallKey(fp, a)
      && r.queueId == supply(m);
    var n :| n in s.minted && s.minted[n].scope.Some? && CallKey(fp, s.minted[n]) == CallKey(fp, b)
      && q.queueId == supply(n);
    assert m != n;
  }

  // ----- a stored record can always be used again -----

  lemma {:induction false} DeliveriesGrow(items: seq<Item>, i: nat, k: nat)
    requires i <= k <= |items|
    ensures Deliveries(items[..i]) + (if i < k && items[i].media != [] then 1 else 0) <= Deliveries(items[..k])
  {
    if i < k {
      DeliveriesGrow(items, i, k - 1);
      assert Init(items[..k]) == items[..k - 1];
    }
  }

  /** The k-th item takes the id after those of the items before it, if it takes one. */
  lemma {:induction false} DeliveryIdAt(supply: nat -> Id, n: nat, items: seq<Item>, k: nat)
    requires k < |items|
    ensures DeliveryIds(supply, n, items)[k] == if items[k].media != [] then Some(supply(n + Deliveries(items[..k])))
            else None
  {
    if k < |items| - 1 {
      DeliveryIdAt(supply, n, Init(items), k);
      assert Init(items)[..k] == items[..k];
    } else {
      assert Init(items) == items[..k];
    }
  }

  lemma DeliveryIdsAreNew(supply: nat -> Id, n: nat, items: seq<Item>)
    requires FreshIds(supply, n + Deliveries(items))
    ensures var ids := DeliveryIds(supply, n, items);
            && (forall k :: 0 <= k < |items| ==>
                if items[k].media != [] then ids[k].Some? && IsUuid(ids[k].value) else ids[k].None?)
            && (forall k :: 0 <= k < |items| && ids[k].Some? ==>
                exists m: nat :: n <= m < n + Deliveries(items) && ids[k].value == supply(m))
            && (forall i, k :: 0 <= i < k < |ids| && ids[i].Some? ==> ids[i] != ids[k])
  {
    hide IsUuid, Deliveries, DeliveryIds;
    var ids := DeliveryIds(supply, n, items);
    assert items[..|items|] == items;
    forall k | 0 <= k < |items|
      ensures ids[k] == if items[k].media != [] then Some(supply(n + Deliveries(items[..k]))) else None
      ensures items[k].media != [] ==> Deliveries(items[..k]) < Deliveries(items)
    {
      DeliveryIdAt(supply, n, items, k);
      DeliveriesGrow(items, k, |items|);
    }
    forall i, k | 0 <= i < k < |items| && ids[i].Some? ensures ids[i] != ids[k] {
      DeliveriesGrow(items, i, k);
    }
  }

  lemma MintedPassesChecks(fp: Fingerprint, supply: nat -> Id, key: Key, n: nat, input: Input)
    requires FreshIds(supply, n + 1 + Deliveries(input.items))
    ensures RecordOk(fp, key, input, PublishQueue.Minted(fp, supply, key, n, input))
  {
    hide IsUuid;
    DeliveryIdsAreNew(supply, n + 1, input.items);
    var ids := DeliveryIds(supply, n + 1, input.items);
    assert IsUuid(supply(n));
    forall k | 0 <= k < |ids| ensures ids[k] != Some(supply(n)) {
      if ids[k].Some? {
        var m: nat :| n + 1 <= m < n + 1 + Deliveries(input.items) && ids[k].value == supply(m);
        assert supply(m) != supply(n);
      }
    }
  }

  /**
   * After any run, a call whose record is stored passes every check, mints nothing and, unless the write
   * throws, returns the request the record stands for.
   */
  lemma StoredRecordIsReusable(fp: Fingerprint, supply: nat -> Id, ops: seq<Op>, c: Call, w: Write)
    requires FreshRun(fp, supply, ops) && Injective(fp)
    requires ValidScope(c.scope) && c.known.None? && CallKey(fp, c) in Run(fp, supply, ops).storage && w != Throws
    ensures var s := Run(fp, supply, ops);
            var (next, p) := BeginStep(fp, supply, s.storage, s.next, c);
            && next == s.next && p.Some? && !p.value.created
            && CommitStep(s.storage, p.value, w) == (s.storage, Some(p.value.request))
            && Answers(c, s.storage[CallKey(fp, c)], p.value.request)
  {
    hide RecordOk, Do, Injective, Run, CallKey, RequestOf, ValidScope, ValidInput;
    var s := Run(fp, supply, ops);
    KeyOfCall(fp, c);
    StoredPassesChecks(fp, supply, ops, c);
    var key := CallKey(fp, c);
    CheckedLength(fp, key, c.input, s.storage[key].record);
    assert s.storage[key := s.storage[key]] == s.storage;
  }

  lemma KeyOfCall(fp: Fingerprint, c: Call)
    requires ValidScope(c.scope)
    ensures c.scope.Some? && CallKey(fp, c) == KeyOf(fp, c.scope.value, c.input, c.productIds)
  {
  }

  lemma StoredPassesChecks(fp: Fingerprint, supply: nat -> Id, ops: seq<Op>, c: Call)
    requires FreshRun(fp, supply, ops) && Injective(fp)
    requires c.scope.Some? && CallKey(fp, c) in Run(fp, supply, ops).storage
    ensures var stored := Run(fp, supply, ops).storage[CallKey(fp, c)];
            stored.Json? && RecordOk(fp, CallKey(fp, c), c.input, stored.record)
  {
    hide RecordOk, Do, PublishQueue.Minted, Injective, Run, CallKey, ResultOk, PendingOk, FreshIds;
    RunKeepsInvariant(fp, supply, ops);
    var s := Run(fp, supply, ops);
    var key := CallKey(fp, c);
    assert Genuine(fp, supply, s, key, s.storage[key]);
    var n: nat :| MintedFor(fp, supply, s, key, s.storage[key], n);
    KeysTellPurposes(fp, s.minted[n], c);
    FewerFresh(supply, n + 1 + Deliveries(c.input.items), s.next);
    MintedPassesChecks(fp, supply, key, n, c.input);
  }

  lemma CheckedLength(fp: Fingerprint, key: Key, input: Input, r: Record)
    requires RecordOk(fp, key, input, r)
    ensures |r.deliveryIds| == |input.items|
  {
  }

  // ----- when a retry record is permanent -----

  /** A call that found no record keeps its new one over a record that has appeared since. */
  predicate Clash(s: Sys, op: Op) {
    op.Commit? && op.id in s.pending && op.write == Kept && s.pending[op.id].1.created
      && s.pending[op.id].1.key in s.storage
  }

  ghost predicate NoClash(fp: Fingerprint, supply: nat -> Id, ops: seq<Op>) {
    forall k :: 0 <= k < |ops| ==> !Clash(Run(fp, supply, ops[..k]), ops[k])
  }

  ghost predicate Keeps(a: Storage, b: Storage) {
    forall k :: k in a ==> k in b && b[k] == a[k]
  }

  /** No stored record is ever replaced by a different one. */
  ghost predicate Permanent(fp: Fingerprint, supply: nat -> Id, ops: seq<Op>) {
    forall i, j :: 0 <= i <= j <= |ops| ==> Keeps(Run(fp, supply, ops[..i]).storage, Run(fp, supply, ops[..j]).storage)
  }

  /** A waiting retry still holds the record that is stored. */
  ghost predicate RetriesCurrent(s: Sys) {
    forall id :: id in s.pending && !s.pending[id].1.created ==>
      s.pending[id].1.key in s.storage && s.storage[s.pending[id].1.key] == s.pending[id].1.serialized
  }

  lemma StepWithoutClash(fp: Fingerprint, supply: nat -> Id, s: Sys, op: Op)
    requires RetriesCurrent(s) && !Clash(s, op)
    ensures Keeps(s.storage, Do(fp, supply, s, op).storage) && RetriesCurrent(Do(fp, supply, s, op))
  {
    hide RecordOk, ValidInput, ValidScope, PublishQueue.Minted, RequestOf;
  }

  lemma ClashReplaces(fp: Fingerprint, supply: nat -> Id, s: Sys, op: Op)
    requires Invariant(fp, supply, s) && Clash(s, op)
    ensures var key := s.pending[op.id].1.key; key in s.storage && Do(fp, supply, s, op).storage[key] != s.storage[key]
  {
    assert PendingOk(fp, supply, s, op.id);
  }

  lemma RunNext(fp: Fingerprint, supply: nat -> Id, ops: seq<Op>, k: nat)
    requires k < |ops|
    ensures Run(fp, supply, ops[..k + 1]) == Do(fp, supply, Run(fp, supply, ops[..k]), ops[k])
  {
    assert Init(ops[..k + 1]) == ops[..k];
  }

  lemma {:induction false} NoClashKeeps(fp: Fingerprint, supply: nat -> Id, ops: seq<Op>, i: nat, j: nat)
    requires NoClash(fp, supply, ops) && i <= j <= |ops|
    ensures Keeps(Run(fp, supply, ops[..i]).storage, Run(fp, supply, ops[..j]).storage)
    ensures RetriesCurrent(Run(fp, supply, ops[..j]))
    decreases j
  {
    hide Do, Clash, RetriesCurrent;
    if j == 0 {
      assert ops[..0] == [];
      IdleIsCurrent();
    } else {
      NoClashKeeps(fp, supply, ops, if i == j then j - 1 else i, j - 1);
      RunNext(fp, supply, ops, j - 1);
      assert !Clash(Run(fp, supply, ops[..j - 1]), ops[j - 1]);
      StepWithoutClash(fp, supply, Run(fp, supply, ops[..j - 1]), ops[j - 1]);
    }
  }

  lemma IdleIsCurrent()
    ensures RetriesCurrent(IDLE)
  {
  }

  /**
   * Retry records are write-once over a run exactly when no call that found no record commits over one that
   * appeared while it was awaiting.
   */
  lemma PermanentIffNoClash(fp: Fingerprint, supply: nat -> Id, ops: seq<Op>)
    requires FreshRun(fp, supply, ops)
    ensures Permanent(fp, supply, ops) <==> NoClash(fp, supply, ops)
  {
    hide Do, Clash, FreshRun, Invariant, Run;
    if NoClash(fp, supply, ops) {
      forall i, j | 0 <= i <= j <= |ops|
        ensures Keeps(Run(fp, supply, ops[..i]).storage, Run(fp, supply, ops[..j]).storage)
      {
        NoClashKeeps(fp, supply, ops, i, j);
      }
    } else {
      var k :| 0 <= k < |ops| && Clash(Run(fp, supply, ops[..k]), ops[k]);
      PrefixIsFresh(fp, supply, ops, k);
      RunKeepsInvariant(fp, supply, ops[..k]);
      ClashReplaces(fp, supply, Run(fp, supply, ops[..k]), ops[k]);
      RunNext(fp, supply, ops, k);
      assert !Keeps(Run(fp, supply, ops[..k]).storage, Run(fp, supply, ops[..k + 1]).storage);
    }
  }

  // ----- identical retries -----

  ghost predicate ResultIsStored(fp: Fingerprint, s: Sys, c: Call, r: Request) {
    c.scope.Some? && CallKey(fp, c) in s.storage && Answers(c, s.storage[CallKey(fp, c)], r)
  }

  ghost predicate ResultsAreStored(fp: Fingerprint, s: Sys) {
    forall k :: 0 <= k < |s.results| ==> ResultIsStored(fp, s, s.results[k].0, s.results[k].1)
  }

  lemma StepStoresResult(fp: Fingerprint, supply: nat -> Id, s: Sys, op: Op)
    requires Invariant(fp, supply, s) && RetriesCurrent(s) && ResultsAreStored(fp, s) && !Clash(s, op)
    ensures ResultsAreStored(fp, Do(fp, supply, s, op))
  {
    hide RecordOk, ValidInput, ValidScope, PublishQueue.Minted, RequestOf, BeginStep, CallKey, Genuine, ResultOk,
      Answers;
    var s' := Do(fp, supply, s, op);
    StepWithoutClash(fp, supply, s, op);
    if op.Commit? && op.id in s.pending {
      assert PendingOk(fp, supply, s, op.id);
      forall k | 0 <= k < |s'.results| ensures ResultIsStored(fp, s', s'.results[k].0, s'.results[k].1) {
        if k < |s.results| { assert ResultIsStored(fp, s, s.results[k].0, s.results[k].1); }
      }
    }
  }

  lemma {:induction false} RunStoresResults(fp: Fingerprint, supply: nat -> Id, ops: seq<Op>, n: nat)
    requires FreshRun(fp, supply, ops) && NoClash(fp, supply, ops) && n <= |ops|
    ensures ResultsAreStored(fp, Run(fp, supply, ops[..n]))
  {
    hide Do, Clash, FreshRun, Invariant, RetriesCurrent, ResultIsStored;
    if n == 0 {
      assert ops[..0] == [];
    } else {
      RunStoresResults(fp, supply, ops, n - 1);
      RunNext(fp, supply, ops, n - 1);
      PrefixIsFresh(fp, supply, ops, n - 1);
      RunKeepsInvariant(fp, supply, ops[..n - 1]);
      NoClashKeeps(fp, supply, ops, n - 1, n - 1);
      assert !Clash(Run(fp, supply, ops[..n - 1]), ops[n - 1]);
      StepStoresResult(fp, supply, Run(fp, supply, ops[..n - 1]), ops[n - 1]);
    }
  }

  /**
   * In a run without clashes all successful calls for one scope and input return the identical request: the
   * same queue id and the same delivery id on each item.
   */
  lemma RetriesAreIdentical(fp: Fingerprint, supply: nat -> Id, ops: seq<Op>, i: nat, j: nat)
    requires FreshRun(fp, supply, ops) && NoClash(fp, supply, ops)
    requires var results := Run(fp, supply, ops).results;
             i < |results| && j < |results| && SamePurpose(results[i].0, results[j].0)
    ensures Run(fp, supply, ops).results[i].1 == Run(fp, supply, ops).results[j].1
  {
    hide Do, FreshRun, NoClash, RequestOf;
    RunStoresResults(fp, supply, ops, |ops|);
    assert ops[..|ops|] == ops;
    var s := Run(fp, supply, ops);
    assert ResultIsStored(fp, s, s.results[i].0, s.results[i].1)
           && ResultIsStored(fp, s, s.results[j].0, s.results[j].1);
  }

  ghost predicate IdenticalRetries(fp: Fingerprint, supply: nat -> Id, ops: seq<Op>) {
    var results := Run(fp, supply, ops).results;
    forall i, j :: 0 <= i < |results| && 0 <= j < |results| && SamePurpose(results[i].0, results[j].0) ==>
      results[i].1 == results[j].1
  }

  /** Some call was given the request that the stored text stands for. */
  ghost predicate WasReturned(fp: Fingerprint, s: Sys, key: Key, stored: Stored) {
    exists k :: 0 <= k < |s.results| && ReturnedAs(fp, key, stored, s.results[k].0, s.results[k].1)
  }

  ghost predicate ReturnedAs(fp: Fingerprint, key: Key, stored: Stored, c: Call, r: Request) {
    c.scope.Some? && CallKey(fp, c) == key && Answers(c, stored, r)
  }

  ghost predicate StoredWereReturned(fp: Fingerprint, s: Sys) {
    forall key :: key in s.storage ==> WasReturned(fp, s, key, s.storage[key])
  }

  lemma StepReturnsStored(fp: Fingerprint, supply: nat -> Id, s: Sys, op: Op)
    requires Invariant(fp, supply, s) && StoredWereReturned(fp, s)
    ensures StoredWereReturned(fp, Do(fp, supply, s, op))
  {
    hide RecordOk, ValidInput, ValidScope, PublishQueue.Minted, RequestOf, BeginStep, Genuine, ResultOk, ReturnedAs;
    var s' := Do(fp, supply, s, op);
    if op.Commit? && op.id in s.pending { CommitReturns(fp, supply, s, op.id, op.write); }
    forall key | key in s'.storage ensures WasReturned(fp, s', key, s'.storage[key]) {
      if key in s.storage && s'.storage[key] == s.storage[key] {
        var k :| 0 <= k < |s.results| && ReturnedAs(fp, key, s.storage[key], s.results[k].0, s.results[k].1);
        assert s'.results[k] == s.results[k];
      }
    }
  }

  /** A kept write is also returned. */
  lemma CommitReturns(fp: Fingerprint, supply: nat -> Id, s: Sys, id: nat, w: Write)
    requires Invariant(fp, supply, s) && id in s.pending
    ensures var (c, p) := s.pending[id]; var s' := Do(fp, supply, s, Commit(id, w));
            && s.results <= s'.results
            && (w == Kept ==> s'.results == s.results + [(c, p.request)]
                              && ReturnedAs(fp, p.key, p.serialized, c, p.request)
                              && WasReturned(fp, s', p.key, p.serialized))
  {
    hide RequestOf, PublishQueue.Minted, CallKey, Genuine, ResultOk, Answers;
    assert PendingOk(fp, supply, s, id);
    var s' := Do(fp, supply, s, Commit(id, w));
    if w == Kept { assert s'.results[|s.results|] == (s.pending[id].0, s.pending[id].1.request); }
  }

  lemma {:induction false} RunReturnsStored(fp: Fingerprint, supply: nat -> Id, ops: seq<Op>, n: nat)
    requires FreshRun(fp, supply, ops) && n <= |ops|
    ensures StoredWereReturned(fp, Run(fp, supply, ops[..n]))
  {
    hide Do, FreshRun, Invariant;
    if n == 0 {
      assert ops[..0] == [];
    } else {
      RunReturnsStored(fp, supply, ops, n - 1);
      PrefixIsFresh(fp, supply, ops, n - 1);
      RunKeepsInvariant(fp, supply, ops[..n - 1]);
      RunNext(fp, supply, ops, n - 1);
      StepReturnsStored(fp, supply, Run(fp, supply, ops[..n - 1]), ops[n - 1]);
    }
  }

  lemma StepKeepsResults(fp: Fingerprint, supply: nat -> Id, s: Sys, op: Op)
    ensures s.results <= Do(fp, supply, s, op).results
  {
    hide RecordOk, ValidInput, ValidScope, PublishQueue.Minted, RequestOf;
  }

  lemma {:induction false} ResultsStay(fp: Fingerprint, supply: nat -> Id, ops: seq<Op>, n: nat)
    requires n <= |ops|
    ensures Run(fp, supply, ops[..n]).results <= Run(fp, supply, ops).results
    decreases |ops| - n
  {
    hide Do;
    if n == |ops| {
      assert ops[..n] == ops;
    } else {
      ResultsStay(fp, supply, ops, n + 1);
      RunNext(fp, supply, ops, n);
      StepKeepsResults(fp, supply, Run(fp, supply, ops[..n]), ops[n]);
    }
  }

  /** The queue ids of two genuine texts for one key differ unless the texts are the same. */
  lemma GenuineIdsDiffer(fp: Fingerprint, supply: nat -> Id, s: Sys, key: Key, a: Stored, b: Stored)
    requires (forall n :: n in s.minted ==> n < s.next) && FreshIds(supply, s.next)
    requires Genuine(fp, supply, s, key, a) && Genuine(fp, supply, s, key, b) && a != b
    ensures a.Json? && b.Json? && a.record.queueId != b.record.queueId
  {
    var m: nat :| MintedFor(fp, supply, s, key, a, m);
    var n: nat :| MintedFor(fp, supply, s, key, b, n);
    if m < n { IdsDiffer(supply, m, n, s.next); } else if n < m { IdsDiffer(supply, n, m, s.next); }
  }

  /** The request of a clashing call and that of the record it replaces have different queue ids. */
  lemma ClashGivesTwoIds(fp: Fingerprint, supply: nat -> Id, s: Sys, op: Op) returns (i: nat)
    requires Invariant(fp, supply, s) && StoredWereReturned(fp, s) && FreshIds(supply, s.next) && Injective(fp)
             && Clash(s, op)
    ensures i < |s.results| && SamePurpose(s.results[i].0, s.pending[op.id].0)
    ensures s.results[i].1.queueId != s.pending[op.id].1.request.queueId
  {
    hide FreshIds, Injective, CallKey, RequestOf, PublishQueue.Minted, ResultOk;
    var (c, p) := s.pending[op.id];
    assert PendingOk(fp, supply, s, op.id);
    GenuineIdsDiffer(fp, supply, s, p.key, s.storage[p.key], p.serialized);
    i :| 0 <= i < |s.results| && ReturnedAs(fp, p.key, s.storage[p.key], s.results[i].0, s.results[i].1);
    KeysTellPurposes(fp, s.results[i].0, c);
    AnswersId(s.results[i].0, s.storage[p.key], s.results[i].1);
    AnswersId(c, p.serialized, p.request);
  }

  /** A clash gives two calls for one scope and input different queue ids. */
  lemma ClashSplitsResults(fp: Fingerprint, supply: nat -> Id, ops: seq<Op>, k: nat)
    requires FreshRun(fp, supply, ops) && Injective(fp) && k < |ops| && Clash(Run(fp, supply, ops[..k]), ops[k])
    ensures !IdenticalRetries(fp, supply, ops)
  {
    hide Do, FreshIds, Injective, Run, Invariant, StoredWereReturned, SamePurpose, ReturnedAs, WasReturned;
    var s, op := Run(fp, supply, ops[..k]), ops[k];
    PrefixIsFresh(fp, supply, ops, k);
    RunKeepsInvariant(fp, supply, ops[..k]);
    RunReturnsStored(fp, supply, ops, k);
    CommitReturns(fp, supply, s, op.id, op.write);
    var i := ClashGivesTwoIds(fp, supply, s, op);
    RunNext(fp, supply, ops, k);
    ResultsStay(fp, supply, ops, k + 1);
    var results, after := Run(fp, supply, ops).results, Run(fp, supply, ops[..k + 1]).results;
    assert results[i] == after[i] == s.results[i];
    assert results[|s.results|] == after[|s.results|] == (s.pending[op.id].0, s.pending[op.id].1.request);
  }

  lemma AnswersId(c: Call, stored: Stored, r: Request)
    requires Answers(c, stored, r)
    ensures r.queueId == stored.record.queueId
  {
  }

  /**
   * All successful calls for one scope and input return the identical request, the same queue id and the same
   * delivery id on each item, exactly when no call clashes.
   */
  lemma RetriesIdenticalIffNoClash(fp: Fingerprint, supply: nat -> Id, ops: seq<Op>)
    requires FreshRun(fp, supply, ops) && Injective(fp)
    ensures IdenticalRetries(fp, supply, ops) <==> NoClash(fp, supply, ops)
  {
    hide Do, FreshRun, Injective, Run, Clash, SamePurpose;
    if NoClash(fp, supply, ops) {
      var results := Run(fp, supply, ops).results;
      forall i, j | 0 <= i < |results| && 0 <= j < |results| && SamePurpose(results[i].0, results[j].0)
        ensures results[i].1 == results[j].1
      {
        RetriesAreIdentical(fp, supply, ops, i, j);
      }
    } else {
      var k :| 0 <= k < |ops| && Clash(Run(fp, supply, ops[..k]), ops[k]);
      ClashSplitsResults(fp, supply, ops, k);
    }
  }

  // ----- a clash is an overlap -----

  /** Both calls await with new records for one key, and the first keeps its write before the second does. */
  ghost predicate Overlap(fp: Fingerprint, supply: nat -> Id, ops: seq<Op>, a: nat, b: nat) {
    && a < b < |ops| && ops[a].Commit? && ops[b].Commit? && ops[a].write == ops[b].write == Kept
    && BothCreate(Run(fp, supply, ops[..a]), ops[a].id, ops[b].id)
    && forall k :: a <= k < b ==> !(ops[k].Commit? && ops[k].id == ops[b].id)
  }

  predicate BothCreate(s: Sys, x: nat, y: nat) {
    && x != y && x in s.pending && y in s.pending && s.pending[x].1.created && s.pending[y].1.created
    && s.pending[x].1.key == s.pending[y].1.key
  }

  /** A waiting retry has a record. */
  ghost predicate RetriesStored(s: Sys) {
    forall id :: id in s.pending && !s.pending[id].1.created ==> s.pending[id].1.key in s.storage
  }

  lemma StepKeepsKeys(fp: Fingerprint, supply: nat -> Id, s: Sys, op: Op)
    requires RetriesStored(s)
    ensures RetriesStored(Do(fp, supply, s, op)) && s.storage.Keys <= Do(fp, supply, s, op).storage.Keys
  {
    hide RecordOk, ValidInput, ValidScope, PublishQueue.Minted, RequestOf;
  }

  lemma {:induction false} RunStoresRetries(fp: Fingerprint, supply: nat -> Id, ops: seq<Op>, n: nat)
    requires n <= |ops|
    ensures RetriesStored(Run(fp, supply, ops[..n]))
  {
    hide Do;
    if n == 0 {
      assert ops[..0] == [];
    } else {
      RunStoresRetries(fp, supply, ops, n - 1);
      RunNext(fp, supply, ops, n - 1);
      StepKeepsKeys(fp, supply, Run(fp, supply, ops[..n - 1]), ops[n - 1]);
    }
  }

  /** How one step can bring a record under the key of an awaiting creating call. */
  lemma StepUnderKey(fp: Fingerprint, supply: nat -> Id, s: Sys, op: Op, y: nat)
    requires RetriesStored(s)
    requires var s' := Do(fp, supply, s, op);
             y in s'.pending && s'.pending[y].1.created && s'.pending[y].1.key in s'.storage
    ensures y in s.pending && s.pending[y] == Do(fp, supply, s, op).pending[y] && !(op.Commit? && op.id == y)
    ensures s.pending[y].1.key !in s.storage ==> op.Commit? && op.write == Kept && BothCreate(s, op.id, y)
  {
    hide RecordOk, ValidInput, ValidScope, PublishQueue.Minted, RequestOf;
  }

  lemma {:induction false} OverlapBefore(fp: Fingerprint, supply: nat -> Id, ops: seq<Op>, n: nat, y: nat)
    returns (a: nat)
    requires n <= |ops|
    requires var s := Run(fp, supply, ops[..n]);
             y in s.pending && s.pending[y].1.created && s.pending[y].1.key in s.storage
    ensures a < n && ops[a].Commit? && ops[a].write == Kept && BothCreate(Run(fp, supply, ops[..a]), ops[a].id, y)
    ensures forall k :: a <= k < n ==> !(ops[k].Commit? && ops[k].id == y)
  {
    hide Do, BothCreate;
    assert n > 0 by { assert ops[..0] == []; }
    var s := Run(fp, supply, ops[..n - 1]);
    RunNext(fp, supply, ops, n - 1);
    RunStoresRetries(fp, supply, ops, n - 1);
    StepUnderKey(fp, supply, s, ops[n - 1], y);
    if s.pending[y].1.key in s.storage {
      a := OverlapBefore(fp, supply, ops, n - 1, y);
    } else {
      a := n - 1;
    }
  }

  lemma StepKeepsAwaiting(fp: Fingerprint, supply: nat -> Id, s: Sys, op: Op, y: nat)
    requires y in s.pending && !(op.Commit? && op.id == y)
    ensures y in Do(fp, supply, s, op).pending && Do(fp, supply, s, op).pending[y] == s.pending[y]
  {
    hide RecordOk, ValidInput, ValidScope, PublishQueue.Minted, RequestOf;
  }

  lemma {:induction false} OverlapReaches(fp: Fingerprint, supply: nat -> Id, ops: seq<Op>, a: nat, b: nat, n: nat)
    requires Overlap(fp, supply, ops, a, b) && a < n <= b
    ensures var s, s' := Run(fp, supply, ops[..a]), Run(fp, supply, ops[..n]); var y := ops[b].id;
            y in s.pending && y in s'.pending && s'.pending[y] == s.pending[y] && s.pending[y].1.key in s'.storage
  {
    hide Run, Do;
    var last := Run(fp, supply, ops[..n - 1]);
    RunNext(fp, supply, ops, n - 1);
    RunStoresRetries(fp, supply, ops, n - 1);
    StepKeepsKeys(fp, supply, last, ops[n - 1]);
    if n > a + 1 {
      OverlapReaches(fp, supply, ops, a, b, n - 1);
    } else {
      KeptIsStored(fp, supply, last, ops[a].id);
    }
    StepKeepsAwaiting(fp, supply, last, ops[n - 1], ops[b].id);
  }

  lemma KeptIsStored(fp: Fingerprint, supply: nat -> Id, s: Sys, x: nat)
    requires x in s.pending
    ensures s.pending[x].1.key in Do(fp, supply, s, Commit(x, Kept)).storage
  {
  }

  /** Clashes are overlaps: two calls that create records for one key at the same time and both keep their write. */
  lemma NoClashIffNoOverlap(fp: Fingerprint, supply: nat -> Id, ops: seq<Op>)
    ensures NoClash(fp, supply, ops) <==> forall a, b :: !Overlap(fp, supply, ops, a, b)
  {
    hide Do, Run, BothCreate;
    if a, b :| Overlap(fp, supply, ops, a, b) {
      OverlapClashes(fp, supply, ops, a, b);
    } else if !NoClash(fp, supply, ops) {
      var b :| 0 <= b < |ops| && Clash(Run(fp, supply, ops[..b]), ops[b]);
      var a := OverlapBefore(fp, supply, ops, b, ops[b].id);
      assert Overlap(fp, supply, ops, a, b);
    }
  }

  lemma OverlapClashes(fp: Fingerprint, supply: nat -> Id, ops: seq<Op>, a: nat, b: nat)
    requires Overlap(fp, supply, ops, a, b)
    ensures Clash(Run(fp, supply, ops[..b]), ops[b])
  {
    hide Do, Run;
    OverlapReaches(fp, supply, ops, a, b, b);
  }

  // ----- one call at a time -----

  /** Before a call starts, no call for the same key is awaiting: something a caller can see to. */
  ghost predicate KeyIdle(fp: Fingerprint, s: Sys, op: Op) {
    op.Begin? && op.call.scope.Some? ==> forall id :: id in s.pending ==> s.pending[id].1.key != CallKey(fp, op.call)
  }

  ghost predicate OneAtATime(fp: Fingerprint, supply: nat -> Id, ops: seq<Op>) {
    forall k :: 0 <= k < |ops| ==> KeyIdle(fp, Run(fp, supply, ops[..k]), ops[k])
  }

  /** Awaiting calls have different keys, and a creating one still has no record. */
  ghost predicate Alone(s: Sys) {
    && (forall a, b :: a in s.pending && b in s.pending && a != b ==> s.pending[a].1.key != s.pending[b].1.key)
    && (forall a :: a in s.pending && s.pending[a].1.created ==> s.pending[a].1.key !in s.storage)
  }

  lemma StepAlone(fp: Fingerprint, supply: nat -> Id, s: Sys, op: Op)
    requires Alone(s) && KeyIdle(fp, s, op)
    ensures Alone(Do(fp, supply, s, op)) && !Clash(s, op)
  {
    hide RecordOk, ValidInput, PublishQueue.Minted, RequestOf;
  }

  lemma {:induction false} OneAtATimeRun(fp: Fingerprint, supply: nat -> Id, ops: seq<Op>, n: nat)
    requires OneAtATime(fp, supply, ops) && n <= |ops|
    ensures Alone(Run(fp, supply, ops[..n])) && (n < |ops| ==> !Clash(Run(fp, supply, ops[..n]), ops[n]))
  {
    hide Do, KeyIdle;
    if n == 0 {
      assert ops[..0] == [];
    } else {
      OneAtATimeRun(fp, supply, ops, n - 1);
      RunNext(fp, supply, ops, n - 1);
      assert KeyIdle(fp, Run(fp, supply, ops[..n - 1]), ops[n - 1]);
      StepAlone(fp, supply, Run(fp, supply, ops[..n - 1]), ops[n - 1]);
    }
    if n < |ops| {
      assert KeyIdle(fp, Run(fp, supply, ops[..n]), ops[n]);
      StepAlone(fp, supply, Run(fp, supply, ops[..n]), ops[n]);
    }
  }

  /** Calls for one scope and input that wait for each other never clash, whatever other keys do meanwhile. */
  lemma OneAtATimeNeverClashes(fp: Fingerprint, supply: nat -> Id, ops: seq<Op>)
    requires OneAtATime(fp, supply, ops)
    ensures NoClash(fp, supply, ops)
  {
    hide OneAtATime, Clash, Run;
    forall k | 0 <= k < |ops| ensures !Clash(Run(fp, supply, ops[..k]), ops[k]) {
      OneAtATimeRun(fp, supply, ops, k);
    }
  }

  /** Two calls for one scope and input that overlap in their awaits both succeed, with different queue ids. */
  lemma OverlapBreaksIdentity(fp: Fingerprint, supply: nat -> Id, c: Call)
    requires ValidScope(c.scope) && ValidInput(c.input) && c.known.None?
    requires FreshRun(fp, supply, [Begin(0, c), Begin(1, c), Commit(0, Kept), Commit(1, Kept)])
    ensures var results := Run(fp, supply, [Begin(0, c), Begin(1, c), Commit(0, Kept), Commit(1, Kept)]).results;
            |results| == 2 && results[0].0 == results[1].0 == c && results[0].1.queueId != results[1].1.queueId
  {
    hide ValidScope, ValidInput, RecordOk, FreshIds;
    var ops := [Begin(0, c), Begin(1, c), Commit(0, Kept), Commit(1, Kept)];
    var s1 := Do(fp, supply, IDLE, ops[0]);
    var s2 := Do(fp, supply, s1, ops[1]);
    var s3 := Do(fp, supply, s2, ops[2]);
    var s4 := Do(fp, supply, s3, ops[3]);
    forall k | 0 <= k < 4 ensures Run(fp, supply, ops[..k + 1]) == Do(fp, supply, Run(fp, supply, ops[..k]), ops[k]) {
      RunNext(fp, supply, ops, k);
    }
    assert ops[..0] == [] && ops[..4] == ops;
    assert Run(fp, supply, ops) == s4;
    IdsDiffer(supply, 0, s1.next, s4.next);
  }

  lemma IdsDiffer(supply: nat -> Id, m: nat, n: nat, limit: nat)
    requires FreshIds(supply, limit) && m < n < limit
    ensures supply(m) != supply(n)
  {
  }
}
