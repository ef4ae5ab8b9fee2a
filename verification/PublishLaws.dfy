/**
 * What the publish queue reads, stores and sends, in the fields of its inputs: when a call is accepted, what the
 * record of a new key holds, and what every returned request says about every item.
 */
module PublishLaws {
  import opened Common
  import opened PublishQueue
  import opened PublishRuns

  // ----- arguments -----

  /** The code points that `trim` removes. */
  const BLANKS: set<int> := {
    0x09, 0x0A, 0x0B, 0x0C, 0x0D, 0x20, 0xA0, 0x1680, 0x2000, 0x2001, 0x2002, 0x2003, 0x2004, 0x2005, 0x2006, 0x2007,
    0x2008, 0x2009, 0x200A, 0x2028, 0x2029, 0x202F, 0x205F, 0x3000, 0xFEFF}

  ghost predicate GoodText(s: string, max: nat) {
    (exists c :: c in s && c as int !in BLANKS) && (forall c :: c in s ==> c as int != 0) && |s| <= max
  }

  lemma BlankLaw(n: int)
    ensures IsTrimmed(n) <==> n in BLANKS
  {
  }

  lemma TextLaw(s: string, max: nat)
    ensures ValidText(s, max) <==> GoodText(s, max)
  {
    hide IsTrimmed, BLANKS;
    forall n: int ensures IsTrimmed(n) <==> n in BLANKS { BlankLaw(n); }
    if ValidText(s, max) {
      var k :| 0 <= k < |s| && !IsTrimmed(s[k] as int);
      assert s[k] in s;
      forall c | c in s ensures c as int != 0 { assert c != '\0'; }
    }
    if GoodText(s, max) {
      var c :| c in s && c as int !in BLANKS;
      var k :| 0 <= k < |s| && s[k] == c;
      assert '\0' !in s;
    }
  }

  ghost predicate Hexadecimal(s: string, n: nat) {
    && |s| == n
    && forall c :: c in s ==> 0x30 <= c as int <= 0x39 || 0x61 <= c as int <= 0x66 || 0x41 <= c as int <= 0x46
  }

  /** A version-4 UUID: 8, 4, 4, 4 and 12 hexadecimal digits between hyphens, with version and variant in place. */
  ghost predicate UuidOf(s: string, a: string, b: string, c: string, d: string, e: string) {
    && Hexadecimal(a, 8) && Hexadecimal(b, 4) && Hexadecimal(c, 4) && Hexadecimal(d, 4) && Hexadecimal(e, 12)
    && s == a + ['-'] + b + ['-'] + c + ['-'] + d + ['-'] + e
    && c[0] == '4' && d[0] in {'8', '9', 'a', 'b', 'A', 'B'}
  }

  ghost predicate GoodUuid(s: string) {
    exists a, b, c, d, e :: UuidOf(s, a, b, c, d, e)
  }

  lemma HexSlice(s: string, i: nat, j: nat)
    requires i <= j <= |s| && forall k :: i <= k < j ==> IsHex(s[k])
    ensures Hexadecimal(s[i..j], j - i)
  {
  }

  lemma SlicesOfUuid(s: string)
    requires |s| == 36 && s[8] == '-' && s[13] == '-' && s[18] == '-' && s[23] == '-'
    ensures s == s[0..8] + ['-'] + s[9..13] + ['-'] + s[14..18] + ['-'] + s[19..23] + ['-'] + s[24..36]
  {
  }

  lemma VariantLaw(c: char)
    ensures c in "89abAB" <==> c in {'8', '9', 'a', 'b', 'A', 'B'}
  {
    var s := "89abAB";
    assert s[0] == '8' && s[1] == '9' && s[2] == 'a' && s[3] == 'b' && s[4] == 'A' && s[5] == 'B' && |s| == 6;
  }

  lemma UuidSlices(s: string)
    requires IsUuid(s)
    ensures GoodUuid(s)
  {
    SlicesOfUuid(s);
    HexSlice(s, 0, 8);
    HexSlice(s, 9, 13);
    HexSlice(s, 14, 18);
    HexSlice(s, 19, 23);
    HexSlice(s, 24, 36);
    VariantLaw(s[19]);
    assert UuidOf(s, s[0..8], s[9..13], s[14..18], s[19..23], s[24..36]);
  }

  lemma HexAt(t: string, n: nat, k: nat)
    requires Hexadecimal(t, n) && k < n
    ensures IsHex(t[k])
  {
    assert t[k] in t;
  }

  lemma SlicedUuid(s: string, a: string, b: string, c: string, d: string, e: string)
    requires UuidOf(s, a, b, c, d, e)
    ensures IsUuid(s)
  {
    assert |s| == 36 && s[14] == c[0] && s[19] == d[0];
    VariantLaw(s[19]);
    forall k | 0 <= k < 36
      ensures if k == 8 || k == 13 || k == 18 || k == 23 then s[k] == '-' else IsHex(s[k])
    {
      if k < 8 { assert s[k] == a[k]; HexAt(a, 8, k); }
      else if 8 < k < 13 { assert s[k] == b[k - 9]; HexAt(b, 4, k - 9); }
      else if 13 < k < 18 { assert s[k] == c[k - 14]; HexAt(c, 4, k - 14); }
      else if 18 < k < 23 { assert s[k] == d[k - 19]; HexAt(d, 4, k - 19); }
      else if 23 < k { assert s[k] == e[k - 24]; HexAt(e, 12, k - 24); }
    }
  }

  lemma UuidLaw(s: string)
    ensures IsUuid(s) <==> GoodUuid(s)
  {
    hide IsUuid, UuidOf;
    if IsUuid(s) { UuidSlices(s); }
    if GoodUuid(s) {
      var a, b, c, d, e :| UuidOf(s, a, b, c, d, e);
      SlicedUuid(s, a, b, c, d, e);
    }
  }

  // ----- records and requests -----

  /** How many of the first k items take a delivery id. */
  function MediaBefore(items: seq<Item>, k: nat): nat
    requires k <= |items|
  {
    if k == 0 then 0 else MediaBefore(items, k - 1) + (if items[k - 1].media == [] then 0 else 1)
  }

  /** The request says of each item what the input says, and which delivery id its media go under. */
  ghost predicate SaysInput(r: Request, input: Input, ids: seq<Option<Id>>) {
    && r.deviceId == input.deviceId && r.accountId == input.accountId
    && |r.items| == |input.items| == |ids|
    && forall k :: 0 <= k < |ids| ==> ItemSays(r.items[k], input.items[k], ids[k])
  }

  ghost predicate ItemSays(sent: RequestItem, item: Item, id: Option<Id>) {
    && sent.description == item.description && sent.price == item.price
    && sent.media == (if item.media == [] then None else Some(item.media))
    && sent.deliveryId == (if item.media == [] then None else id)
  }

  lemma RequestLaw(input: Input, queueId: Id, ids: seq<Option<Id>>)
    requires |ids| == |input.items|
    ensures RequestOf(input, queueId, ids).queueId == queueId && SaysInput(RequestOf(input, queueId, ids), input, ids)
  {
  }

  lemma {:induction false} DeliveryIdsLaw(supply: nat -> Id, n: nat, items: seq<Item>, k: nat)
    requires k <= |items|
    ensures Deliveries(items) == MediaBefore(items, |items|)
    ensures k < |items| ==>
              DeliveryIds(supply, n, items)[k]
              == if items[k].media == [] then None else Some(supply(n + MediaBefore(items, k)))
  {
    if items != [] {
      DeliveryIdsLaw(supply, n, Init(items), if k < |items| - 1 then k else 0);
      MediaOfPrefix(items, |items| - 1, |items| - 1);
      if k < |items| { MediaOfPrefix(items, |items| - 1, if k < |items| - 1 then k else |items| - 1); }
    }
  }

  lemma {:induction false} MediaOfPrefix(items: seq<Item>, n: nat, k: nat)
    requires k <= n <= |items|
    ensures MediaBefore(items[..n], k) == MediaBefore(items, k)
  {
    if k > 0 { MediaOfPrefix(items, n, k - 1); }
  }

  /** The record of a new key: its ids are the next ones of the supply, in item order, and its checksum covers them. */
  lemma MintedLaw(fp: Fingerprint, supply: nat -> Id, key: Key, n: nat, input: Input)
    ensures var r := PublishQueue.Minted(fp, supply, key, n, input);
            && r.version == 1 && r.scopeHash == key.scopeHash && r.requestHash == key.requestHash
            && r.queueId == supply(n) && |r.deliveryIds| == |input.items|
            && (forall k :: 0 <= k < |input.items| ==>
                  r.deliveryIds[k]
                  == if input.items[k].media == [] then None else Some(supply(n + 1 + MediaBefore(input.items, k))))
            && r.identityHash == fp(IdentityValue(r.scopeHash, r.requestHash, r.queueId, r.deliveryIds))
  {
    hide DeliveryIds;
    forall k | 0 <= k < |input.items|
      ensures DeliveryIds(supply, n + 1, input.items)[k] ==
                if input.items[k].media == [] then None else Some(supply(n + 1 + MediaBefore(input.items, k)))
    {
      DeliveryIdsLaw(supply, n + 1, input.items, k);
    }
  }

  /** A stored record is good for an input when it is for this key, fits its items and repeats no id. */
  ghost predicate GoodRecord(fp: Fingerprint, key: Key, input: Input, r: Record) {
    && r.version == 1 && r.scopeHash == key.scopeHash && r.requestHash == key.requestHash
    && GoodUuid(r.queueId) && |r.deliveryIds| == |input.items|
    && (forall k :: 0 <= k < |input.items| ==>
          if input.items[k].media == [] then r.deliveryIds[k] == None
          else exists id :: r.deliveryIds[k] == Some(id) && GoodUuid(id) && id != r.queueId)
    && (forall i, k, id :: 0 <= i < k < |r.deliveryIds| && r.deliveryIds[i] == Some(id) ==>
          r.deliveryIds[k] != Some(id))
    && r.identityHash == fp(IdentityValue(key.scopeHash, key.requestHash, r.queueId, r.deliveryIds))
  }

  lemma RecordLaw(fp: Fingerprint, key: Key, input: Input, r: Record)
    ensures RecordOk(fp, key, input, r) <==> GoodRecord(fp, key, input, r)
  {
    hide IsUuid, GoodUuid;
    forall s ensures IsUuid(s) <==> GoodUuid(s) { UuidLaw(s); }
    if RecordOk(fp, key, input, r) {
      forall k | 0 <= k < |input.items|
        ensures if input.items[k].media == [] then r.deliveryIds[k] == None
                else exists id :: r.deliveryIds[k] == Some(id) && GoodUuid(id) && id != r.queueId
      {
        if input.items[k].media != [] { assert r.deliveryIds[k] == Some(r.deliveryIds[k].value); }
      }
    }
  }

  // ----- the two steps -----

  ghost predicate GoodScope(scope: Option<Scope>) {
    && scope.Some? && GoodText(scope.value.tenantId, 36) && GoodText(scope.value.userId, 36)
    && scope.value.apiEnvironment != ""
  }

  ghost predicate GoodInput(input: Input) {
    GoodText(input.deviceId, 36) && GoodText(input.accountId, 36) && 1 <= |input.items| <= 50
  }

  /** The scope and the products with the input are hashed apart. */
  function HashedKey(fp: Fingerprint, c: Call): Key
    requires c.scope.Some?
  {
    Key(fp(ScopeValue(c.scope.value)), fp(RequestValue(c.productIds, c.input)))
  }

  /** A record is there: it is used again if it is good and the request known to the caller is the one it gives. */
  lemma ReuseLaw(fp: Fingerprint, supply: nat -> Id, storage: Storage, next: nat, c: Call)
    requires GoodScope(c.scope) && HashedKey(fp, c) in storage
    ensures var key := HashedKey(fp, c);
            var stored := storage[key];
            var (next', p) := BeginStep(fp, supply, storage, next, c);
            && next' == next
            && (p.Some? ==>
                  && stored.Json? && GoodRecord(fp, key, c.input, stored.record)
                  && p.value.key == key && !p.value.created && p.value.serialized == stored
                  && p.value.request.queueId == stored.record.queueId
                  && SaysInput(p.value.request, c.input, stored.record.deliveryIds)
                  && (c.known.Some? ==> c.known.value == p.value.request))
            && (p.None? ==>
                  stored.Json? && GoodRecord(fp, key, c.input, stored.record) ==>
                    c.known.Some? && !(c.known.value.queueId == stored.record.queueId
                                       && SaysInput(c.known.value, c.input, stored.record.deliveryIds)))
  {
    hide RecordOk, GoodRecord, ValidText, GoodText, RequestOf, SaysInput;
    ScopeLaw(c.scope);
    var stored := storage[HashedKey(fp, c)];
    if stored.Json? {
      RecordLaw(fp, HashedKey(fp, c), c.input, stored.record);
      if GoodRecord(fp, HashedKey(fp, c), c.input, stored.record) {
        SizeLaw(fp, HashedKey(fp, c), c.input, stored.record);
        RequestLaw(c.input, stored.record.queueId, stored.record.deliveryIds);
        if c.known.Some? { SaidOnce(c.known.value, c.input, stored.record.queueId, stored.record.deliveryIds); }
      }
    }
  }

  lemma SizeLaw(fp: Fingerprint, key: Key, input: Input, r: Record)
    requires GoodRecord(fp, key, input, r)
    ensures |r.deliveryIds| == |input.items|
  {
  }

  /** A queue id, an input and delivery ids leave no choice for the request. */
  lemma SaidOnce(r: Request, input: Input, queueId: Id, ids: seq<Option<Id>>)
    requires |ids| == |input.items|
    ensures r.queueId == queueId && SaysInput(r, input, ids) <==> r == RequestOf(input, queueId, ids)
  {
    if r.queueId == queueId && SaysInput(r, input, ids) {
      var q := RequestOf(input, queueId, ids);
      forall k | 0 <= k < |ids| ensures r.items[k] == q.items[k] {
        assert ItemSays(r.items[k], input.items[k], ids[k]);
      }
      assert r.items == q.items;
    }
  }

  lemma ScopeLaw(scope: Option<Scope>)
    ensures ValidScope(scope) <==> GoodScope(scope)
  {
    hide ValidText, GoodText;
    if scope.Some? {
      TextLaw(scope.value.tenantId, 36);
      TextLaw(scope.value.userId, 36);
    }
  }

  lemma InputLaw(input: Input)
    ensures ValidInput(input) <==> GoodInput(input)
  {
    hide ValidText, GoodText;
    TextLaw(input.deviceId, 36);
    TextLaw(input.accountId, 36);
  }

  /** No record is there: a new one is minted for a good input of a caller that knows of none. */
  lemma MintLaw(fp: Fingerprint, supply: nat -> Id, storage: Storage, next: nat, c: Call)
    requires GoodScope(c.scope) && HashedKey(fp, c) !in storage
    ensures var key := HashedKey(fp, c);
            var (next', p) := BeginStep(fp, supply, storage, next, c);
            && (p.Some? <==> c.known == None && GoodInput(c.input))
            && (p.Some? ==>
                  && next' == next + 1 + MediaBefore(c.input.items, |c.input.items|)
                  && p.value.key == key && p.value.created && p.value.serialized.Json?
                  && p.value.serialized.record == PublishQueue.Minted(fp, supply, key, next, c.input)
                  && p.value.request.queueId == supply(next)
                  && SaysInput(p.value.request, c.input, p.value.serialized.record.deliveryIds))
            && (p.None? ==> next' == next)
  {
    hide RecordOk, ValidText, GoodText, RequestOf, SaysInput, PublishQueue.Minted;
    ScopeLaw(c.scope);
    InputLaw(c.input);
    MintedLaw(fp, supply, HashedKey(fp, c), next, c.input);
    var record := PublishQueue.Minted(fp, supply, HashedKey(fp, c), next, c.input);
    RequestLaw(c.input, record.queueId, record.deliveryIds);
    DeliveryIdsLaw(supply, next + 1, c.input.items, 0);
  }

  lemma NoScopeLaw(fp: Fingerprint, supply: nat -> Id, storage: Storage, next: nat, c: Call)
    ensures !GoodScope(c.scope) ==> BeginStep(fp, supply, storage, next, c) == (next, None)
  {
    hide RecordOk, GoodScope, ValidScope;
    ScopeLaw(c.scope);
  }

  /** The request is returned if and only if the text is found under its key after the write. */
  lemma CommitLaw(storage: Storage, p: Pending, w: Write)
    ensures var (storage', r) := CommitStep(storage, p, w);
            && storage' == (if w == Kept then storage[p.key := p.serialized] else storage)
            && r == (if w != Throws && p.key in storage' && storage'[p.key] == p.serialized then Some(p.request)
                     else None)
  {
  }

  // ----- what a run returns -----

  /** Behind a returned request there is a record that was minted for its key, and the request says its input. */
  ghost predicate Backed(fp: Fingerprint, supply: nat -> Id, s: Sys, c: Call, r: Request) {
    && c.scope.Some?
    && exists record :: BackedBy(fp, supply, s, c, r, record)
  }

  ghost predicate BackedBy(fp: Fingerprint, supply: nat -> Id, s: Sys, c: Call, r: Request, record: Record)
    requires c.scope.Some?
  {
    && Genuine(fp, supply, s, HashedKey(fp, c), Json(record))
    && r.queueId == record.queueId && SaysInput(r, c.input, record.deliveryIds)
  }

  ghost predicate AllBacked(fp: Fingerprint, supply: nat -> Id, s: Sys) {
    forall k :: 0 <= k < |s.results| ==> Backed(fp, supply, s, s.results[k].0, s.results[k].1)
  }

  lemma BackedGrows(fp: Fingerprint, supply: nat -> Id, s: Sys, s': Sys, c: Call, r: Request)
    requires Backed(fp, supply, s, c, r)
    requires forall n :: n in s.minted ==> n in s'.minted && s'.minted[n] == s.minted[n]
    ensures Backed(fp, supply, s', c, r)
  {
    hide Genuine, SaysInput;
    var record :| BackedBy(fp, supply, s, c, r, record);
    GenuineGrows(fp, supply, s, s', HashedKey(fp, c), Json(record));
    assert BackedBy(fp, supply, s', c, r, record);
  }

  lemma PendingIsBacked(fp: Fingerprint, supply: nat -> Id, s: Sys, id: nat)
    requires Invariant(fp, supply, s) && id in s.pending
    ensures Backed(fp, supply, s, s.pending[id].0, s.pending[id].1.request)
  {
    hide Genuine, RequestOf, SaysInput;
    var (c, p) := s.pending[id];
    assert PendingOk(fp, supply, s, id);
    RequestLaw(c.input, p.serialized.record.queueId, p.serialized.record.deliveryIds);
    assert BackedBy(fp, supply, s, c, p.request, p.serialized.record);
  }

  lemma MintedStays(fp: Fingerprint, supply: nat -> Id, s: Sys, op: Op)
    requires Invariant(fp, supply, s)
    ensures var s' := Do(fp, supply, s, op); forall n :: n in s.minted ==> n in s'.minted && s'.minted[n] == s.minted[n]
  {
    hide Genuine, PendingOk, ResultOk, BeginStep, CommitStep;
  }

  lemma {:induction false} RunIsBacked(fp: Fingerprint, supply: nat -> Id, ops: seq<Op>)
    requires FreshRun(fp, supply, ops)
    ensures AllBacked(fp, supply, Run(fp, supply, ops))
  {
    hide FreshIds, FreshRun, Invariant, BeginStep, Backed;
    if ops != [] {
      var s, op := Run(fp, supply, Init(ops)), Last(ops);
      var s' := Do(fp, supply, s, op);
      PrefixIsFresh(fp, supply, ops, |ops| - 1);
      assert ops[..|ops| - 1] == Init(ops);
      RunKeepsInvariant(fp, supply, Init(ops));
      RunIsBacked(fp, supply, Init(ops));
      MintedStays(fp, supply, s, op);
      forall k | 0 <= k < |s'.results| ensures Backed(fp, supply, s', s'.results[k].0, s'.results[k].1) {
        if k < |s.results| {
          assert s'.results[k] == s.results[k];
          BackedGrows(fp, supply, s, s', s.results[k].0, s.results[k].1);
        } else {
          PendingIsBacked(fp, supply, s, op.id);
          BackedGrows(fp, supply, s, s', s.pending[op.id].0, s.pending[op.id].1.request);
        }
      }
    }
  }

  /**
   * Every request that a run returns is for the device and the account of its call. Item k has the description, the
   * price and the media of the input's item k, and goes under the k-th delivery id of the record behind it, if it
   * has media at all. That record was minted for the key of the call.
   */
  lemma ResultsInFull(fp: Fingerprint, supply: nat -> Id, ops: seq<Op>, i: nat)
    requires FreshRun(fp, supply, ops) && i < |Run(fp, supply, ops).results|
    ensures var (c, r) := Run(fp, supply, ops).results[i];
            && c.scope.Some? && r.deviceId == c.input.deviceId && r.accountId == c.input.accountId
            && |r.items| == |c.input.items|
            && exists record ::
                 && Genuine(fp, supply, Run(fp, supply, ops), HashedKey(fp, c), Json(record))
                 && r.queueId == record.queueId && |record.deliveryIds| == |r.items|
                 && forall k :: 0 <= k < |r.items| ==>
                      var item, sent := c.input.items[k], r.items[k];
                      && sent.description == item.description && sent.price == item.price
                      && (if item.media == [] then sent.media == None && sent.deliveryId == None
                          else sent.media == Some(item.media) && sent.deliveryId == record.deliveryIds[k])
  {
    hide Run, Genuine, FreshRun;
    RunIsBacked(fp, supply, ops);
    var (c, r) := Run(fp, supply, ops).results[i];
    var record :| BackedBy(fp, supply, Run(fp, supply, ops), c, r, record);
    assert forall k :: 0 <= k < |r.items| ==> ItemSays(r.items[k], c.input.items[k], record.deliveryIds[k]);
  }
}
