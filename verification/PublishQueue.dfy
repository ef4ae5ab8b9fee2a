/**
 * The retry identity of a publish queue (apps/web/src/data/xianyu-publish-goods.ts, `persistXianyuPublishQueue`
 * and `prepareXianyuPublishQueue`).
 *
 * The function awaits a digest between reading the stored record and writing it, so a call is two atomic steps,
 * `Begin` and `Commit`, and steps of several calls may interleave.
 */
module PublishQueue {
  import opened Common

  type Id = string

  datatype Scope = Scope(tenantId: string, userId: string, apiEnvironment: string)

  /** An item as a page passes it in: a missing media list is read as an empty one. */
  datatype Item = Item(description: string, price: string, media: seq<string>)

  datatype Input = Input(deviceId: string, accountId: string, items: seq<Item>)

  /** An item as it is sent: an empty media list is left out, and an explicit empty list is something else. */
  datatype RequestItem =
    RequestItem(description: string, price: string, media: Option<seq<string>>, deliveryId: Option<Id>)

  datatype Request = Request(queueId: Id, deviceId: string, accountId: string, items: seq<RequestItem>)

  datatype Record = Record(version: int, scopeHash: string, requestHash: string, queueId: Id,
                           deliveryIds: seq<Option<Id>>, identityHash: string)

  /** A stored text either parses as a record or does not. */
  datatype Stored = Json(record: Record) | Garbage(text: string)

  /** The values that are digested. */
  datatype Value =
    | ScopeValue(scope: Scope)
    | RequestValue(productIds: seq<string>, input: Input)
    | IdentityValue(scopeHash: string, requestHash: string, queueId: Id, deliveryIds: seq<Option<Id>>)

  type Fingerprint = Value -> string

  /** The two hashes that make up the storage key. */
  datatype Key = Key(scopeHash: string, requestHash: string)

  datatype Call = Call(scope: Option<Scope>, input: Input, productIds: seq<string>, known: Option<Request>)

  // ----- argument checks -----

  predicate ValidText(s: string, max: nat) {
    (exists k :: 0 <= k < |s| && !IsTrimmed(s[k] as int)) && '\0' !in s && |s| <= max
  }

  predicate ValidScope(scope: Option<Scope>) {
    scope.Some? && ValidText(scope.value.tenantId, 36) && ValidText(scope.value.userId, 36)
      && scope.value.apiEnvironment != ""
  }

  predicate ValidInput(input: Input) {
    ValidText(input.deviceId, 36) && ValidText(input.accountId, 36) && 1 <= |input.items| <= 50
  }

  predicate IsHex(c: char) {
    '0' <= c <= '9' || 'a' <= c <= 'f' || 'A' <= c <= 'F'
  }

  predicate IsUuid(s: Id) {
    && |s| == 36
    && (forall k :: 0 <= k < 36 ==> if k == 8 || k == 13 || k == 18 || k == 23 then s[k] == '-' else IsHex(s[k]))
    && s[14] == '4' && s[19] in "89abAB"
  }

  // ----- requests and records -----

  function KeyOf(fp: Fingerprint, scope: Scope, input: Input, productIds: seq<string>): Key {
    Key(fp(ScopeValue(scope)), fp(RequestValue(productIds, input)))
  }

  function RequestItemOf(item: Item, deliveryId: Option<Id>): RequestItem {
    if item.media != [] then RequestItem(item.description, item.price, Some(item.media), deliveryId)
    else RequestItem(item.description, item.price, None, None)
  }

  function RequestOf(input: Input, queueId: Id, deliveryIds: seq<Option<Id>>): Request
    requires |deliveryIds| == |input.items|
  {
    Request(queueId, input.deviceId, input.accountId,
            seq(|input.items|, k requires 0 <= k < |input.items| => RequestItemOf(input.items[k], deliveryIds[k])))
  }

  function RecordOf(fp: Fingerprint, key: Key, queueId: Id, deliveryIds: seq<Option<Id>>): Record {
    Record(1, key.scopeHash, key.requestHash, queueId, deliveryIds,
           fp(IdentityValue(key.scopeHash, key.requestHash, queueId, deliveryIds)))
  }

  /** How many items take a delivery id. */
  function Deliveries(items: seq<Item>): nat {
    if items == [] then 0 else Deliveries(Init(items)) + (if Last(items).media != [] then 1 else 0)
  }

  /** `crypto.randomUUID` as a supply: in item order, each item with media takes the next id. */
  function DeliveryIds(supply: nat -> Id, n: nat, items: seq<Item>): (r: seq<Option<Id>>)
    ensures |r| == |items|
  {
    if items == [] then []
    else
      var last := if Last(items).media != [] then Some(supply(n + Deliveries(Init(items)))) else None;
      DeliveryIds(supply, n, Init(items)) + [last]
  }

  function Minted(fp: Fingerprint, supply: nat -> Id, key: Key, n: nat, input: Input): Record {
    RecordOf(fp, key, supply(n), DeliveryIds(supply, n + 1, input.items))
  }

  /** The checks on a stored record before it is used again. */
  predicate RecordOk(fp: Fingerprint, key: Key, input: Input, r: Record) {
    && r.version == 1 && r.scopeHash == key.scopeHash && r.requestHash == key.requestHash && IsUuid(r.queueId)
    && |r.deliveryIds| == |input.items|
    && (forall k :: 0 <= k < |input.items| ==>
          if input.items[k].media != [] then r.deliveryIds[k].Some? && IsUuid(r.deliveryIds[k].value)
              else r.deliveryIds[k].None?)
    && (forall i, k :: 0 <= i < k < |r.deliveryIds| && r.deliveryIds[i].Some? ==> r.deliveryIds[i] != r.deliveryIds[k])
    && Some(r.queueId) !in r.deliveryIds
    && r.identityHash == fp(IdentityValue(key.scopeHash, key.requestHash, r.queueId, r.deliveryIds))
  }

  // ----- the two steps -----

  type Storage = map<Key, Stored>

  /** What a call carries across its await. */
  datatype Pending = Pending(key: Key, request: Request, serialized: Stored, created: bool)

  /** None: the call threw. */
  function BeginStep(fp: Fingerprint, supply: nat -> Id, storage: Storage, next: nat, c: Call): (nat, Option<Pending>) {
    if !ValidScope(c.scope) then (next, None)
    else
      var key := KeyOf(fp, c.scope.value, c.input, c.productIds);
      if key in storage then
        if storage[key].Garbage? || !RecordOk(fp, key, c.input, storage[key].record) then (next, None)
        else
          var request := RequestOf(c.input, storage[key].record.queueId, storage[key].record.deliveryIds);
          if c.known.Some? && c.known.value != request then (next, None)
          else (next, Some(Pending(key, request, storage[key], false)))
      else if c.known.Some? || !ValidInput(c.input) then (next, None)
      else
        var record := Minted(fp, supply, key, next, c.input);
        (next + 1 + Deliveries(c.input.items),
         Some(Pending(key, RequestOf(c.input, record.queueId, record.deliveryIds), Json(record), true)))
  }

  /** A write may succeed, throw, or be dropped without a word. */
  datatype Write = Kept | Throws | Dropped

  function CommitStep(storage: Storage, p: Pending, w: Write): (Storage, Option<Request>) {
    match w
    case Throws => (storage, None)
    case Kept => (storage[p.key := p.serialized], Some(p.request))
    case Dropped => (storage, if p.key in storage && storage[p.key] == p.serialized then Some(p.request) else None)
  }

  // ----- the browser tab -----

  class Tab {
    const fingerprint: Fingerprint
    const supply: nat -> Id
    var storage: Storage
    var next: nat

    constructor (fingerprint: Fingerprint, supply: nat -> Id)
      ensures this.fingerprint == fingerprint && this.supply == supply && storage == map[] && next == 0
    {
      this.fingerprint, this.supply, storage, next := fingerprint, supply, map[], 0;
    }

    method RandomUuid() returns (id: Id)
      modifies this`next
      ensures id == supply(old(next)) && next == old(next) + 1
    {
      id := supply(next);
      next := next + 1;
    }

    method Prepare(input: Input) returns (r: Option<(Id, seq<Option<Id>>)>)
      modifies this`next
      ensures r.Some? <==> ValidInput(input)
      ensures r.None? ==> next == old(next)
      ensures r.Some? ==> r.value == (supply(old(next)), DeliveryIds(supply, old(next) + 1, input.items))
                          && next == old(next) + 1 + Deliveries(input.items)
    {
      hide ValidInput;
      if !ValidInput(input) { return None; }
      var queueId := RandomUuid();
      var deliveryIds: seq<Option<Id>> := [];
      ghost var start := next;
      for k := 0 to |input.items|
        invariant next == start + Deliveries(input.items[..k])
        invariant deliveryIds == DeliveryIds(supply, start, input.items[..k])
      {
        assert Init(input.items[..k + 1]) == input.items[..k];
        if input.items[k].media != [] {
          var id := RandomUuid();
          deliveryIds := deliveryIds + [Some(id)];
        } else {
          deliveryIds := deliveryIds + [None];
        }
      }
      assert input.items[..|input.items|] == input.items;
      return Some((queueId, deliveryIds));
    }

    /** From the call up to the await of the identity digest. */
    method Begin(c: Call) returns (p: Option<Pending>)
      modifies this`next
      ensures (next, p) == BeginStep(fingerprint, supply, storage, old(next), c)
    {
      if !ValidScope(c.scope) { return None; }
      var key := KeyOf(fingerprint, c.scope.value, c.input, c.productIds);
      if key in storage {
        var existing := storage[key];
        if existing.Garbage? || !RecordOk(fingerprint, key, c.input, existing.record) { return None; }
        var request := RequestOf(c.input, existing.record.queueId, existing.record.deliveryIds);
        if c.known.Some? && c.known.value != request { return None; }
        return Some(Pending(key, request, existing, false));
      }
      if c.known.Some? { return None; }
      var ids := Prepare(c.input);
      if ids.None? { return None; }
      var (queueId, deliveryIds) := ids.value;
      var request := RequestOf(c.input, queueId, deliveryIds);
      return Some(Pending(key, request, Json(RecordOf(fingerprint, key, queueId, deliveryIds)), true));
    }

    /** From the await to the end: write, read back, return. */
    method Commit(p: Pending, w: Write) returns (r: Option<Request>)
      modifies this`storage
      ensures (storage, r) == CommitStep(old(storage), p, w)
    {
      if w == Throws { return None; }
      if w == Kept { storage := storage[p.key := p.serialized]; }
      if p.key !in storage || storage[p.key] != p.serialized { return None; }
      return Some(p.request);
    }
  }
}
