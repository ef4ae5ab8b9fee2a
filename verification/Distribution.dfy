/**
 * Distributing items over devices: blocks for posts (apps/web/src/data/post-publish.ts, `allocatePosts`) and
 * round robin for products (apps/web/src/data/xianyu-publish-goods.ts, `allocateProducts`).
 */
module Distribution {
  import opened Common
  import opened Ordering

  datatype Assignment = Assignment(deviceId: string, itemId: string)

  datatype Mode = Default | Even

  /** The share of device position i when n items go to d devices. */
  function Quota(n: nat, d: nat, i: nat): nat
    requires d > 0
  {
    n / d + (if i < n % d then 1 else 0)
  }

  /** Item k goes to the device at position at[k]. */
  function Assign(items: seq<string>, devices: seq<string>, at: seq<nat>): seq<Assignment>
    requires |at| == |items| && forall k :: 0 <= k < |at| ==> at[k] < |devices|
  {
    seq(|items|, k requires 0 <= k < |items| => Assignment(devices[at[k]], items[k]))
  }

  lemma NextAssigned(items: seq<string>, devices: seq<string>, at: seq<nat>, k: nat)
    requires |at| == |items| && forall k :: 0 <= k < |at| ==> at[k] < |devices|
    ensures |Assign(items, devices, at)| == |items|
    ensures k < |items| ==>
              var whole := Assign(items, devices, at);
              whole[..k + 1] == whole[..k] + [Assignment(devices[at[k]], items[k])]
  {
  }

  function Repeat(i: nat, times: nat): seq<nat> {
    seq(times, _ => i)
  }

  /** The block lengths, as the split works them out before its loops. */
  function Counts(n: nat, d: nat): (r: seq<nat>)
    requires d > 0
    ensures |r| == d && forall i :: 0 <= i < d ==> r[i] == Quota(n, d, i)
  {
    var base, extra := n / d, n % d;
    seq(d, i => base + (if i < extra then 1 else 0))
  }

  /** The positions of the block split for the first i devices. */
  function Blocks(n: nat, d: nat, i: nat): seq<nat>
    requires d > 0
  {
    if i == 0 then [] else Blocks(n, d, i - 1) + Repeat(i - 1, Quota(n, d, i - 1))
  }

  /** The position that item k gets when the devices take turns. */
  function Seat(k: nat, d: nat): (r: nat)
    requires d > 0
    ensures r < d
  {
    k % d
  }

  function RoundRobin(n: nat, d: nat): (r: seq<nat>)
    requires d > 0
    ensures |r| == n && forall k :: 0 <= k < n ==> r[k] == Seat(k, d) < d
  {
    seq(n, k requires 0 <= k < n => Seat(k, d))
  }

  /** What the first i shares of q, the first r of them larger by one, add up to. */
  function Shares(q: nat, r: nat, i: nat): nat {
    if i == 0 then 0 else Shares(q, r, i - 1) + q + (if i - 1 < r then 1 else 0)
  }

  lemma {:induction false} SharesSum(q: nat, r: nat, i: nat)
    ensures Shares(q, r, i) == i * q + (if i < r then i else r)
  {
    if i > 0 {
      SharesSum(q, r, i - 1);
      assert (i - 1) * q + q == i * q;
    }
  }

  ghost predicate IsDivided(n: nat, d: nat, q: nat, r: nat)
    requires d > 0
  {
    q == n / d && r == n % d
  }

  lemma QuotaIsShare(n: nat, d: nat, q: nat, r: nat, i: nat)
    requires d > 0 && IsDivided(n, d, q, r)
    ensures Quota(n, d, i) == q + (if i < r then 1 else 0)
  {
  }

  lemma {:induction false} BlocksLength(n: nat, d: nat, q: nat, r: nat, i: nat)
    requires d > 0 && IsDivided(n, d, q, r)
    ensures |Blocks(n, d, i)| == Shares(q, r, i)
    ensures forall k :: 0 <= k < |Blocks(n, d, i)| ==> Blocks(n, d, i)[k] < i
  {
    hide Quota, IsDivided;
    if i > 0 {
      BlocksLength(n, d, q, r, i - 1);
      QuotaIsShare(n, d, q, r, i - 1);
    }
  }

  lemma BlocksShape(n: nat, d: nat, i: nat)
    requires d > 0 && i <= d
    ensures |Blocks(n, d, i)| == i * (n / d) + (if i < n % d then i else n % d)
    ensures forall k :: 0 <= k < |Blocks(n, d, i)| ==> Blocks(n, d, i)[k] < i
  {
    hide Blocks, Quota, Shares;
    BlocksLength(n, d, n / d, n % d, i);
    SharesSum(n / d, n % d, i);
  }

  lemma BlocksFill(n: nat, d: nat)
    requires d > 0
    ensures |Blocks(n, d, d)| == n && forall k :: 0 <= k < n ==> Blocks(n, d, d)[k] < d
  {
    BlocksShape(n, d, d);
  }

  // ----- equal loads -----

  lemma {:induction false} RepeatCount(i: nat, times: nat, j: nat)
    ensures multiset(Repeat(i, times))[j] == if i == j then times else 0
  {
    if times > 0 {
      RepeatCount(i, times - 1, j);
      assert Repeat(i, times) == Repeat(i, times - 1) + [i];
    }
  }

  lemma {:induction false} BlocksCount(n: nat, d: nat, i: nat, j: nat)
    requires d > 0
    ensures multiset(Blocks(n, d, i))[j] == if j < i then Quota(n, d, j) else 0
  {
    if i > 0 {
      BlocksCount(n, d, i - 1, j);
      RepeatCount(i - 1, Quota(n, d, i - 1), j);
    }
  }

  lemma DivStep(n: nat, d: nat)
    requires d > 0
    ensures if n % d + 1 < d then (n + 1) / d == n / d && (n + 1) % d == n % d + 1
            else (n + 1) / d == n / d + 1 && (n + 1) % d == 0
  {
    var q, r := n / d, n % d;
    assert n + 1 == d * q + r + 1;
    if r + 1 < d {
      DivUnique(n + 1, d, q, r + 1);
    } else {
      assert d * q + d == d * (q + 1);
      DivUnique(n + 1, d, q + 1, 0);
    }
  }

  lemma DivUnique(n: nat, d: nat, q: nat, r: nat)
    requires d > 0 && n == d * q + r && r < d
    ensures n / d == q && n % d == r
  {
    var a, b := n / d, n % d;
    assert n == d * a + b;
    assert d * (q + 1) == d * q + d && d * (a + 1) == d * a + d;
    if a > q {
      Multiples(d, q + 1, a);
    } else if a < q {
      Multiples(d, a + 1, q);
    }
  }

  lemma {:induction false} Multiples(d: nat, x: nat, y: nat)
    requires x <= y
    ensures d * x <= d * y
  {
    if x < y {
      Multiples(d, x, y - 1);
      assert d * y == d * (y - 1) + d;
    }
  }

  /** One more item adds one to the share of the position whose turn it is. */
  lemma QuotaStep(n: nat, d: nat, j: nat)
    requires d > 0 && j < d
    ensures Quota(n + 1, d, j) == Quota(n, d, j) + (if Seat(n, d) == j then 1 else 0)
  {
    DivStep(n, d);
  }

  lemma QuotaOfNothing(d: nat, j: nat)
    requires d > 0
    ensures Quota(0, d, j) == 0
  {
    DivUnique(0, d, 0, 0);
  }

  lemma {:induction false} RoundRobinCount(n: nat, d: nat, j: nat)
    requires d > 0 && j < d
    ensures multiset(RoundRobin(n, d))[j] == Quota(n, d, j)
  {
    hide Quota, Seat;
    if n == 0 {
      QuotaOfNothing(d, j);
    } else {
      RoundRobinCount(n - 1, d, j);
      assert RoundRobin(n, d) == RoundRobin(n - 1, d) + [Seat(n - 1, d)];
      QuotaStep(n - 1, d, j);
    }
  }

  /** The two even modes give every device position the same number of items. */
  lemma EvenModesLoadAlike(n: nat, d: nat)
    requires d > 0
    ensures multiset(Blocks(n, d, d)) == multiset(RoundRobin(n, d))
  {
    BlocksFill(n, d);
    forall j: nat ensures multiset(Blocks(n, d, d))[j] == multiset(RoundRobin(n, d))[j] {
      BlocksCount(n, d, d, j);
      if j < d {
        RoundRobinCount(n, d, j);
      } else {
        assert j !in RoundRobin(n, d);
      }
    }
  }

  /** Shares differ by at most one and add up to the whole. */
  lemma QuotasAreFair(n: nat, d: nat, i: nat, j: nat)
    requires d > 0 && i <= j < d
    ensures Quota(n, d, j) <= Quota(n, d, i) <= Quota(n, d, j) + 1
    ensures |Blocks(n, d, d)| == n
  {
    BlocksFill(n, d);
  }

  // ----- the two functions -----

  function Cross(items: seq<string>, devices: seq<string>): seq<Assignment> {
    if devices == [] then []
    else Cross(items, Init(devices)) + ForDevice(items, Last(devices))
  }

  function ForDevice(items: seq<string>, device: string): (r: seq<Assignment>)
    ensures |r| == |items| && forall k :: 0 <= k < |items| ==> r[k] == Assignment(device, items[k])
  {
    seq(|items|, k requires 0 <= k < |items| => Assignment(device, items[k]))
  }

  /** Every post to every device, or the posts in blocks. */
  function PostsInBlocks(posts: seq<string>, devices: seq<string>, mode: Mode): seq<Assignment> {
    if posts == [] || devices == [] then []
    else if mode == Default then Cross(posts, devices)
    else
      BlocksFill(|posts|, |devices|);
      Assign(posts, devices, Blocks(|posts|, |devices|, |devices|))
  }

  method AllocatePosts(posts: seq<string>, devices: seq<string>, mode: Mode) returns (out: seq<Assignment>)
    ensures out == PostsInBlocks(posts, devices, mode)
  {
    hide *;
    PostsByMode(posts, devices);
    if posts == [] || devices == [] { return []; }
    if mode == Default { return Cross(posts, devices); }
    var n, d := |posts|, |devices|;
    var counts := Counts(n, d);
    out := [];
    var cursor := 0;
    BlocksFill(n, d);
    FirstBlocks(n, d);
    NextAssigned(posts, devices, Blocks(n, d, d), 0);
    for i := 0 to d
      invariant cursor == |Blocks(n, d, i)| == |out|
      invariant Blocks(n, d, i) <= Blocks(n, d, d)
      invariant out == Assign(posts, devices, Blocks(n, d, d))[..cursor]
    {
      BlocksArePrefixes(n, d, i + 1);
      NextBlock(n, d, i);
      ghost var at := Blocks(n, d, i);
      for offset := 0 to counts[i]
        invariant cursor == |at| + offset == |out|
        invariant out == Assign(posts, devices, Blocks(n, d, d))[..cursor]
      {
        NextAssigned(posts, devices, Blocks(n, d, d), cursor);
        out := out + [Assignment(devices[i], posts[cursor])];
        cursor := cursor + 1;
      }
    }
    assert out == Assign(posts, devices, Blocks(n, d, d));
  }

  lemma PostsByMode(posts: seq<string>, devices: seq<string>)
    ensures forall mode :: posts == [] || devices == [] ==> PostsInBlocks(posts, devices, mode) == []
    ensures posts != [] && devices != [] ==>
              && |Blocks(|posts|, |devices|, |devices|)| == |posts|
              && (forall k :: 0 <= k < |posts| ==> Blocks(|posts|, |devices|, |devices|)[k] < |devices|)
              && PostsInBlocks(posts, devices, Default) == Cross(posts, devices)
              && PostsInBlocks(posts, devices, Even) == Assign(posts, devices, Blocks(|posts|, |devices|, |devices|))
  {
    if devices != [] { BlocksFill(|posts|, |devices|); }
  }

  lemma FirstBlocks(n: nat, d: nat)
    requires d > 0
    ensures Blocks(n, d, 0) == [] <= Blocks(n, d, d)
  {
  }

  lemma NextBlock(n: nat, d: nat, i: nat)
    requires i < d
    ensures |Blocks(n, d, i + 1)| == |Blocks(n, d, i)| + Quota(n, d, i)
    ensures var next := Blocks(n, d, i + 1); forall k :: |Blocks(n, d, i)| <= k < |next| ==> next[k] == i
  {
  }

  lemma {:induction false} BlocksArePrefixes(n: nat, d: nat, i: nat)
    requires d > 0 && i <= d
    ensures Blocks(n, d, i) <= Blocks(n, d, d)
    decreases d - i
  {
    if i < d { BlocksArePrefixes(n, d, i + 1); }
  }

  function AllocateProducts(products: seq<string>, devices: seq<string>, mode: Mode): seq<Assignment> {
    if products == [] || devices == [] then []
    else if mode == Default then Cross(products, devices)
    else Assign(products, devices, RoundRobin(|products|, |devices|))
  }

  // ----- loads per device id -----

  function Items(out: seq<Assignment>): seq<string> {
    seq(|out|, k requires 0 <= k < |out| => out[k].itemId)
  }

  function DeviceIds(out: seq<Assignment>): seq<string> {
    seq(|out|, k requires 0 <= k < |out| => out[k].deviceId)
  }

  ghost predicate InRange(at: seq<nat>, d: nat) {
    forall k :: 0 <= k < |at| ==> at[k] < d
  }

  /** Every item is assigned exactly once and in item order, to an in-range device. */
  lemma AssignKeepsItems(items: seq<string>, devices: seq<string>, at: seq<nat>)
    requires |at| == |items| && InRange(at, |devices|)
    ensures Items(Assign(items, devices, at)) == items
    ensures forall k :: 0 <= k < |items| ==> DeviceIds(Assign(items, devices, at))[k] == devices[at[k]]
  {
  }

  function IdsAt(devices: seq<string>, at: seq<nat>): seq<string>
    requires forall k :: 0 <= k < |at| ==> at[k] < |devices|
  {
    seq(|at|, k requires 0 <= k < |at| => devices[at[k]])
  }

  lemma RemoveMapped(devices: seq<string>, at: seq<nat>, k: nat)
    requires InRange(at, |devices|) && k < |at|
    ensures InRange(RemoveAt(at, k), |devices|)
    ensures multiset(IdsAt(devices, at)) == multiset(IdsAt(devices, RemoveAt(at, k))) + multiset{devices[at[k]]}
  {
    assert IdsAt(devices, RemoveAt(at, k)) == RemoveAt(IdsAt(devices, at), k);
    RemoveAtMultiset(IdsAt(devices, at), k);
  }

  lemma {:induction false} MappedMultisets(devices: seq<string>, a: seq<nat>, b: seq<nat>)
    requires InRange(a, |devices|) && InRange(b, |devices|) && multiset(a) == multiset(b)
    ensures multiset(IdsAt(devices, a)) == multiset(IdsAt(devices, b))
    decreases |a|
  {
    if a == [] {
      assert |multiset(b)| == 0;
      assert b == [];
    } else {
      assert a[0] in multiset(b);
      var k :| 0 <= k < |b| && b[k] == a[0];
      RemoveAtMultiset(a, 0);
      RemoveAtMultiset(b, k);
      RemoveMapped(devices, a, 0);
      RemoveMapped(devices, b, k);
      MappedMultisets(devices, RemoveAt(a, 0), RemoveAt(b, k));
    }
  }

  lemma EvenLoads(posts: seq<string>, products: seq<string>, devices: seq<string>)
    requires |posts| == |products| && devices != []
    ensures |Blocks(|posts|, |devices|, |devices|)| == |posts|
            && InRange(Blocks(|posts|, |devices|, |devices|), |devices|)
    ensures multiset(DeviceIds(Assign(posts, devices, Blocks(|posts|, |devices|, |devices|))))
         == multiset(DeviceIds(Assign(products, devices, RoundRobin(|products|, |devices|))))
  {
    var n, d := |posts|, |devices|;
    BlocksFill(n, d);
    EvenModesLoadAlike(n, d);
    MappedMultisets(devices, Blocks(n, d, d), RoundRobin(n, d));
    assert DeviceIds(Assign(posts, devices, Blocks(n, d, d))) == IdsAt(devices, Blocks(n, d, d));
    assert DeviceIds(Assign(products, devices, RoundRobin(n, d))) == IdsAt(devices, RoundRobin(n, d));
  }

  lemma {:induction false} CrossIds(a: seq<string>, b: seq<string>, devices: seq<string>)
    requires |a| == |b|
    ensures DeviceIds(Cross(a, devices)) == DeviceIds(Cross(b, devices))
  {
    if devices != [] {
      CrossIds(a, b, Init(devices));
      CrossNext(a, devices);
      CrossNext(b, devices);
    }
  }

  lemma CrossNext(items: seq<string>, devices: seq<string>)
    requires devices != []
    ensures DeviceIds(Cross(items, devices))
         == DeviceIds(Cross(items, Init(devices))) + seq(|items|, k requires 0 <= k < |items| => Last(devices))
  {
  }

  /**
   * The two allocations put the same load on every device id, in either mode, for any number of items and any
   * device list, repeated ids included.
   */
  lemma EvenModesLoadDevicesAlike(posts: seq<string>, products: seq<string>, devices: seq<string>, mode: Mode)
    requires |posts| == |products|
    ensures multiset(DeviceIds(PostsInBlocks(posts, devices, mode)))
         == multiset(DeviceIds(AllocateProducts(products, devices, mode)))
  {
    hide Cross, Assign, Blocks, RoundRobin, InRange;
    PostsByMode(posts, devices);
    if posts != [] && devices != [] {
      CrossIds(posts, products, devices);
      EvenLoads(posts, products, devices);
    }
  }

  lemma {:induction false} LoadOf(devices: seq<string>, at: seq<nat>, i: nat)
    requires Distinct(devices) && i < |devices| && InRange(at, |devices|)
    ensures multiset(IdsAt(devices, at))[devices[i]] == multiset(at)[i]
  {
    if at != [] {
      LoadOf(devices, Init(at), i);
      assert at == Init(at) + [Last(at)];
      assert IdsAt(devices, at) == IdsAt(devices, Init(at)) + [devices[Last(at)]];
    }
  }

  lemma RoundRobinQuota(products: seq<string>, devices: seq<string>, i: nat)
    requires Distinct(devices) && i < |devices|
    ensures multiset(DeviceIds(Assign(products, devices, RoundRobin(|products|, |devices|))))[devices[i]] ==
            Quota(|products|, |devices|, i)
  {
    var at := RoundRobin(|products|, |devices|);
    assert DeviceIds(Assign(products, devices, at)) == IdsAt(devices, at);
    LoadOf(devices, at, i);
    RoundRobinCount(|products|, |devices|, i);
  }

  lemma {:induction false} RepeatedId(x: string, n: nat, y: string)
    ensures multiset(seq(n, k requires 0 <= k < n => x))[y] == if x == y then n else 0
  {
    if n > 0 {
      RepeatedId(x, n - 1, y);
      assert seq(n, k requires 0 <= k < n => x) == seq(n - 1, k requires 0 <= k < n - 1 => x) + [x];
    }
  }

  lemma {:induction false} CrossLoad(items: seq<string>, devices: seq<string>, x: string)
    requires Distinct(devices)
    ensures multiset(DeviceIds(Cross(items, devices)))[x] == if x in devices then |items| else 0
  {
    if devices != [] {
      CrossLoad(items, Init(devices), x);
      CrossNext(items, devices);
      RepeatedId(Last(devices), |items|, x);
      assert devices == Init(devices) + [Last(devices)];
    }
  }

  /**
   * With distinct ids, the device at position i receives all items in the default mode and its quota in the even
   * one, from either allocation.
   */
  lemma EachDeviceGetsItsQuota(items: seq<string>, devices: seq<string>, mode: Mode, i: nat)
    requires Distinct(devices) && i < |devices|
    ensures var share := if mode == Default then |items| else Quota(|items|, |devices|, i);
            && multiset(DeviceIds(AllocateProducts(items, devices, mode)))[devices[i]] == share
            && multiset(DeviceIds(PostsInBlocks(items, devices, mode)))[devices[i]] == share
  {
    hide Cross, Assign, Blocks, RoundRobin;
    EvenModesLoadDevicesAlike(items, items, devices, mode);
    CrossLoad(items, devices, devices[i]);
    RoundRobinQuota(items, devices, i);
  }

  // ----- every single assignment -----

  lemma CrossLength(items: seq<string>, devices: seq<string>)
    requires devices != []
    ensures |Cross(items, devices)| == |Cross(items, Init(devices))| + |items|
    ensures forall j :: 0 <= j < |items| ==>
              Cross(items, devices)[|Cross(items, Init(devices))| + j] == Assignment(Last(devices), items[j])
    ensures Cross(items, Init(devices)) <= Cross(items, devices)
  {
    hide ForDevice;
    assert Cross(items, devices) == Cross(items, Init(devices)) + ForDevice(items, Last(devices));
  }

  lemma NextMultiple(i: nat, n: nat)
    requires i > 0
    ensures (i - 1) * n + n == i * n
  {
  }

  lemma {:induction false} SmallerMultiple(i: nat, j: nat, d: nat, n: nat)
    requires i < d && j < n
    ensures i * n + j < d * n
  {
    NextMultiple(d, n);
    if i < d - 1 { SmallerMultiple(i, j, d - 1, n); }
  }

  lemma {:induction false} CrossAt(items: seq<string>, devices: seq<string>, i: nat, j: nat)
    requires i < |devices| && j < |items|
    ensures |Cross(items, devices)| == |devices| * |items|
    ensures i * |items| + j < |devices| * |items|
    ensures Cross(items, devices)[i * |items| + j] == Assignment(devices[i], items[j])
    decreases |devices|
  {
    hide Cross;
    CrossLength(items, devices);
    NextMultiple(|devices|, |items|);
    SmallerMultiple(i, j, |devices|, |items|);
    if |devices| == 1 {
      CrossNothing(items);
      assert Init(devices) == [];
    } else {
      CrossAt(items, Init(devices), if i < |devices| - 1 then i else 0, j);
    }
  }

  lemma CrossNothing(items: seq<string>)
    ensures Cross(items, []) == []
  {
  }

  /** In the default mode item j goes to every device, and the devices come one after the other. */
  lemma DefaultLaw(items: seq<string>, devices: seq<string>, i: nat, j: nat)
    requires i < |devices| && j < |items|
    ensures PostsInBlocks(items, devices, Default) == AllocateProducts(items, devices, Default)
    ensures var out := PostsInBlocks(items, devices, Default);
            && |out| == |devices| * |items| && i * |items| + j < |out|
            && out[i * |items| + j] == Assignment(devices[i], items[j])
  {
    hide Cross;
    CrossAt(items, devices, i, j);
  }

  /** The first item of the block of device position i. */
  function BlockStart(n: nat, d: nat, i: nat): nat
    requires d > 0
  {
    i * (n / d) + (if i < n % d then i else n % d)
  }

  lemma {:induction false} BlockOf(n: nat, d: nat, i: nat, k: nat)
    requires d > 0 && i <= d && k < |Blocks(n, d, i)|
    ensures |Blocks(n, d, i)| == BlockStart(n, d, i)
    ensures var at := Blocks(n, d, i)[k]; at < i && BlockStart(n, d, at) <= k < BlockStart(n, d, at + 1)
  {
    hide Quota;
    BlocksShape(n, d, i);
    BlocksShape(n, d, i - 1);
    if k < |Blocks(n, d, i - 1)| { BlockOf(n, d, i - 1, k); }
  }

  /** In the even mode post k goes to the device whose block it falls into. */
  lemma BlockLaw(posts: seq<string>, devices: seq<string>, k: nat)
    requires devices != [] && k < |posts|
    ensures var out := PostsInBlocks(posts, devices, Even);
            && |out| == |posts| && out[k].itemId == posts[k]
            && exists i :: 0 <= i < |devices| && out[k].deviceId == devices[i]
                           && BlockStart(|posts|, |devices|, i) <= k < BlockStart(|posts|, |devices|, i + 1)
  {
    hide Blocks;
    PostsByMode(posts, devices);
    BlockOf(|posts|, |devices|, |devices|, k);
    var i := Blocks(|posts|, |devices|, |devices|)[k];
    assert PostsInBlocks(posts, devices, Even)[k].deviceId == devices[i];
  }

  /** In the even mode product k goes to the device whose turn it is. */
  lemma TurnLaw(products: seq<string>, devices: seq<string>, k: nat)
    requires devices != [] && k < |products|
    ensures var out := AllocateProducts(products, devices, Even);
            |out| == |products| && out[k] == Assignment(devices[k % |devices|], products[k])
  {
  }
}
