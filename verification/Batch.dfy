/**
 The shape of a report on the wire: items made legal under the batch limits, and a payload split into
 posts.
 */
module Batch {
  import opened Prelude
  import opened Utf8

  const MAX_ITEMS: nat := 50
  const MAX_PARAMS: nat := 24
  const MAX_VALUE_LEN: nat := 256
  const MAX_NAME_LEN: nat := 64

  type Param = (Text, Text)

  datatype Item = Item(device: Text, event: Text, params: seq<Param>)

  predicate Legal(p: Param) {
    p.0 != [] && |p.0| <= MAX_NAME_LEN && p.1 != []
  }

  // --- What an item keeps ------------------------------------------------------------------------------------------

  /** Distinct legal keys, in the order of their first legal occurrence. */
  function Keys(params: seq<Param>): seq<Text> {
    if params == [] then []
    else
      var front, p := Keys(params[..|params| - 1]), Last(params);
      if Legal(p) && p.0 !in front then front + [p.0] else front
  }

  /** The value of the last legal occurrence of a key, cut. */
  function LastValue(params: seq<Param>, key: Text): Text {
    if params == [] then []
    else
      var p := Last(params);
      if Legal(p) && p.0 == key then CutTo(p.1, MAX_VALUE_LEN)
      else LastValue(params[..|params| - 1], key)
  }

  function Kept(params: seq<Param>): seq<Param> {
    seq(|Keys(params)|, i requires 0 <= i < |Keys(params)| => (Keys(params)[i], LastValue(params, Keys(params)[i])))
  }

  datatype Clamped = Clamped(item: Item, dropped: nat)

  function Clamp(item: Item): Clamped {
    var kept := Kept(item.params);
    Clamped(
      Item(CutTo(item.device, MAX_NAME_LEN), CutTo(item.event, MAX_NAME_LEN), kept[..Min(|kept|, MAX_PARAMS)]),
      Max(|kept| - MAX_PARAMS, 0))
  }

  /** One pass over the params: a key seen before has its value replaced where it stands. */
  method ClampItem(item: Item) returns (clamped: Item, dropped: nat)
    ensures Clamped(clamped, dropped) == Clamp(item)
  {
    var out: seq<Param> := [];
    assert Kept([]) == out;
    hide Kept, Keys, LastValue, CutTo;
    for i := 0 to |item.params|
      invariant out == Kept(item.params[..i])
    {
      var p := item.params[i];
      assert item.params[..i + 1][..i] == item.params[..i];
      if p.0 == [] || |p.0| > MAX_NAME_LEN || p.1 == [] {
        SkippedKeeps(item.params[..i], p);
        assert item.params[..i] + [p] == item.params[..i + 1];
        continue;
      }
      var value := Cut(p.1, MAX_VALUE_LEN);
      var slot := 0;
      while slot < |out| && out[slot].0 != p.0
        invariant slot <= |out|
        invariant forall j :: 0 <= j < slot ==> out[j].0 != p.0
      {
        slot := slot + 1;
      }
      LegalKeeps(item.params[..i], p, slot);
      assert item.params[..i] + [p] == item.params[..i + 1];
      if slot < |out| {
        out := out[slot := (out[slot].0, value)];
      } else {
        out := out + [(p.0, value)];
      }
    }
    assert item.params[..|item.params|] == item.params;
    dropped := Max(|out| - MAX_PARAMS, 0);
    out := out[..Min(|out|, MAX_PARAMS)];
    var device := Cut(item.device, MAX_NAME_LEN);
    var event := Cut(item.event, MAX_NAME_LEN);
    clamped := Item(device, event, out);
  }

  lemma SkippedKeeps(params: seq<Param>, p: Param)
    requires !Legal(p)
    ensures Kept(params + [p]) == Kept(params)
  {
    assert (params + [p])[..|params|] == params;
  }

  lemma {:induction false} KeysAreDistinct(params: seq<Param>)
    ensures forall i, j :: 0 <= i < j < |Keys(params)| ==> Keys(params)[i] != Keys(params)[j]
    ensures forall k :: k in Keys(params) <==> exists i :: 0 <= i < |params| && Legal(params[i]) && params[i].0 == k
  {
    if params != [] {
      KeysAreDistinct(params[..|params| - 1]);
    }
  }

  lemma LegalKeeps(params: seq<Param>, p: Param, slot: nat)
    requires Legal(p) && slot <= |Kept(params)|
    requires forall j :: 0 <= j < slot ==> Kept(params)[j].0 != p.0
    requires slot < |Kept(params)| ==> Kept(params)[slot].0 == p.0
    ensures var kept, value := Kept(params), CutTo(p.1, MAX_VALUE_LEN);
      Kept(params + [p]) == if slot < |kept| then kept[slot := (p.0, value)] else kept + [(p.0, value)]
  {
    assert (params + [p])[..|params|] == params;
    KeysAreDistinct(params);
    var keys := Keys(params);
    assert forall j :: 0 <= j < |keys| ==> Kept(params)[j].0 == keys[j];
  }

  // --- What that means -------------------------------------------------------------------------------------------------

  /** `i` is where `key` first stands legally. */
  ghost predicate FirstLegalAt(params: seq<Param>, key: Text, i: nat) {
    i < |params| && Legal(params[i]) && params[i].0 == key
    && forall j :: 0 <= j < i && Legal(params[j]) ==> params[j].0 != key
  }

  ghost predicate LastLegalAt(params: seq<Param>, key: Text, i: nat) {
    i < |params| && Legal(params[i]) && params[i].0 == key
    && forall j :: i < j < |params| && Legal(params[j]) ==> params[j].0 != key
  }

  ghost function LegalKeys(params: seq<Param>): set<Text> {
    set p | p in params && Legal(p) :: p.0
  }

  /** Keys stand in the order of their first legal occurrence. */
  lemma {:induction false} KeysInFirstOrder(params: seq<Param>, a: nat, b: nat, i: nat, j: nat)
    requires a < b < |Keys(params)|
    requires FirstLegalAt(params, Keys(params)[a], i) && FirstLegalAt(params, Keys(params)[b], j)
    ensures i < j
  {
    var front, p := params[..|params| - 1], Last(params);
    KeysAreDistinct(front);
    var keys := Keys(front);
    if b < |keys| {
      assert keys[b] in keys && keys[a] in keys;
      FirstIsInFront(front, p, keys[a], i);
      FirstIsInFront(front, p, keys[b], j);
      KeysInFirstOrder(front, a, b, i, j);
    } else {
      assert keys[a] in keys;
      FirstIsInFront(front, p, keys[a], i);
    }
  }

  lemma {:induction false} FirstIsInFront(front: seq<Param>, p: Param, key: Text, i: nat)
    requires FirstLegalAt(front + [p], key, i) && key in Keys(front)
    ensures FirstLegalAt(front, key, i)
  {
    KeysAreDistinct(front);
    var all := front + [p];
    var k :| 0 <= k < |front| && Legal(front[k]) && front[k].0 == key;
    assert all[k] == front[k];
    assert forall j :: 0 <= j < |front| ==> all[j] == front[j];
  }

  lemma {:induction false} LastValueIsLast(params: seq<Param>, key: Text, i: nat)
    requires LastLegalAt(params, key, i)
    ensures LastValue(params, key) == CutTo(params[i].1, MAX_VALUE_LEN)
  {
    var front := params[..|params| - 1];
    if i < |front| {
      assert params[|params| - 1] == Last(params);
      assert forall j :: 0 <= j < |front| ==> front[j] == params[j];
      LastValueIsLast(front, key, i);
    }
  }

  lemma {:induction false} KeysCountLegalKeys(params: seq<Param>)
    ensures |Keys(params)| == |LegalKeys(params)|
    ensures forall k :: k in Keys(params) <==> k in LegalKeys(params)
  {
    hide Legal;
    if params == [] {
      assert LegalKeys(params) == {};
    } else {
      var front, p := params[..|params| - 1], Last(params);
      KeysCountLegalKeys(front);
      LegalKeysOfMore(front, p);
      assert params == front + [p];
      hide LegalKeys;
    }
  }

  lemma LegalKeysOfMore(params: seq<Param>, p: Param)
    ensures LegalKeys(params + [p]) == if Legal(p) then LegalKeys(params) + {p.0} else LegalKeys(params)
  {
    hide Legal;
  }

  lemma {:induction false} LastValueIsLegal(params: seq<Param>, key: Text)
    requires key in Keys(params)
    ensures 0 < |LastValue(params, key)| <= MAX_VALUE_LEN
    ensures key != [] && |key| <= MAX_NAME_LEN
  {
    var front, p := params[..|params| - 1], Last(params);
    KeysAreDistinct(params);
    if !(Legal(p) && p.0 == key) {
      LastValueIsLegal(front, key);
    }
  }

  /** Each kept param has its key's last legal value, cut. */
  ghost predicate LastValuesKept(params: seq<Param>, kept: seq<Param>) {
    forall a: nat, i: nat :: a < |kept| && i < |params| && LastLegalAt(params, kept[a].0, i) ==>
      kept[a].1 == CutTo(params[i].1, 256)
  }

  ghost predicate FirstOrderKept(params: seq<Param>, kept: seq<Param>) {
    forall a: nat, b: nat, i: nat, j: nat ::
      (a < b < |kept| && FirstLegalAt(params, kept[a].0, i) && FirstLegalAt(params, kept[b].0, j)) ==> i < j
  }

  /** A param is legal if it has a key of at most 64 bytes and a value. */
  lemma LegalIs(p: Param)
    ensures Legal(p) <==> 1 <= |p.0| <= 64 && |p.1| >= 1
  {
  }

  /**
   What a clamped item is, read off the original alone: its params are the first 24 distinct legal keys in
   the order they first stand legally, each with its last legal value, cut; the rest of the distinct legal
   keys are counted as dropped; and everything in it is within the limits.
   */
  lemma ClampKeepsTheLegal(item: Item)
    ensures var c := Clamp(item);
      var kept := c.item.params;
      && |kept| + c.dropped == |LegalKeys(item.params)| && (c.dropped > 0 ==> |kept| == 24) && |kept| <= 24
      && |c.item.device| <= 64 && |c.item.event| <= 64
      && (forall a :: 0 <= a < |kept| ==> Legal(kept[a]) && |kept[a].1| <= 256 && kept[a].0 in LegalKeys(item.params))
      && LastValuesKept(item.params, kept) && FirstOrderKept(item.params, kept)
  {
    hide FirstLegalAt, LastLegalAt;
    var params, kept := item.params, Clamp(item).item.params;
    KeysCountLegalKeys(params);
    forall a | 0 <= a < |kept|
      ensures Legal(kept[a]) && |kept[a].1| <= MAX_VALUE_LEN && kept[a].0 in LegalKeys(params)
    {
      assert kept[a].0 == Keys(params)[a];
      LastValueIsLegal(params, Keys(params)[a]);
    }
    forall a: nat, i: nat | a < |kept| && i < |params| && LastLegalAt(params, kept[a].0, i)
      ensures kept[a].1 == CutTo(params[i].1, MAX_VALUE_LEN)
    {
      LastValueIsLast(params, kept[a].0, i);
    }
    forall a: nat, b: nat, i: nat, j: nat | a < b < |kept| && FirstLegalAt(params, kept[a].0, i) && FirstLegalAt(params, kept[b].0, j)
      ensures i < j
    {
      KeysInFirstOrder(params, a, b, i, j);
    }
  }

  /** And a key left out while another was kept stands after it: nothing kept is later than anything dropped. */
  lemma DroppedStandLater(item: Item, key: Text, a: nat, i: nat, j: nat)
    requires a < |Clamp(item).item.params|
    requires key in LegalKeys(item.params) && (forall b :: 0 <= b < |Clamp(item).item.params| ==> Clamp(item).item.params[b].0 != key)
    requires FirstLegalAt(item.params, Clamp(item).item.params[a].0, i) && FirstLegalAt(item.params, key, j)
    ensures i < j
  {
    hide FirstLegalAt;
    KeysCountLegalKeys(item.params);
    var keys, kept := Keys(item.params), Clamp(item).item.params;
    assert forall b :: 0 <= b < |kept| ==> kept[b].0 == keys[b];
    var b :| 0 <= b < |keys| && keys[b] == key;
    KeysInFirstOrder(item.params, a, b, i, j);
  }

  ghost predicate Clean(params: seq<Param>) {
    && (forall i :: 0 <= i < |params| ==> Legal(params[i]) && |params[i].1| <= MAX_VALUE_LEN)
    && (forall i, j :: 0 <= i < j < |params| ==> params[i].0 != params[j].0)
  }

  lemma FitsUncut(value: Text)
    ensures |value| <= MAX_VALUE_LEN ==> CutTo(value, MAX_VALUE_LEN) == value
  {
  }

  lemma {:induction false} CleanIsKept(params: seq<Param>)
    requires Clean(params)
    ensures Kept(params) == params
  {
    if params != [] {
      hide Keys, LastValue, CutTo;
      var front, p := params[..|params| - 1], Last(params);
      CleanIsKept(front);
      assert forall j :: 0 <= j < |front| ==> Kept(front)[j].0 != p.0;
      FitsUncut(p.1);
      LegalKeeps(front, p, |front|);
      assert params == front + [p];
    }
  }

  /** A clamped item is already legal: clamping it again changes and drops nothing. */
  lemma ClampIsIdempotent(item: Item)
    ensures Clamp(Clamp(item).item) == Clamped(Clamp(item).item, 0)
  {
    var kept := Clamp(item).item.params;
    KeysAreDistinct(item.params);
    forall a | 0 <= a < |kept| ensures Legal(kept[a]) && |kept[a].1| <= MAX_VALUE_LEN {
      LastValueIsLegal(item.params, Keys(item.params)[a]);
    }
    CleanIsKept(kept);
  }

  // --- Posts -------------------------------------------------------------------------------------------------------------

  /** "hub.status" */
  const HUB_STATUS: Bytes := [0x68, 0x75, 0x62, 0x2E, 0x73, 0x74, 0x61, 0x74, 0x75, 0x73]

  predicate IsStatus(item: Item) {
    item.event == HUB_STATUS
  }

  /** Where the first such element stands, or the length if there is none. */
  function FirstAt<T>(s: seq<T>, such: T -> bool): (i: nat)
    ensures i <= |s|
    ensures i < |s| ==> such(s[i])
    ensures forall j :: 0 <= j < i ==> !such(s[j])
  {
    if s == [] || such(s[0]) then 0 else 1 + FirstAt(s[1..], such)
  }

  function StatusFirst(items: seq<Item>): seq<Item> {
    var i := FirstAt(items, IsStatus);
    if i == |items| then items else [items[i]] + items[..i] + items[i + 1..]
  }

  function Chunks(items: seq<Item>): seq<seq<Item>> {
    if items == [] then [] else [items[..Min(|items|, MAX_ITEMS)]] + Chunks(items[Min(|items|, MAX_ITEMS)..])
  }

  function Posts(items: seq<Item>): seq<seq<Item>> {
    if items == [] then [[]] else Chunks(StatusFirst(items))
  }

  method Split(items: seq<Item>) returns (posts: seq<seq<Item>>)
    ensures posts == Posts(items)
  {
    hide IsStatus;
    if items == [] {
      return [[]];
    }
    var at: nat := 0;
    while at < |items| && !IsStatus(items[at])
      invariant at <= FirstAt(items, IsStatus)
    {
      at := at + 1;
    }
    var moved := items;
    if at < |items| {
      moved := [items[at]] + items[..at] + items[at + 1..];
    }
    posts := InChunks(moved);
  }

  method InChunks(items: seq<Item>) returns (posts: seq<seq<Item>>)
    ensures posts == Chunks(items)
  {
    var rest := items;
    posts := [];
    while rest != []
      invariant posts + Chunks(rest) == Chunks(items)
      decreases |rest|
    {
      var n := Min(|rest|, MAX_ITEMS);
      assert posts + ([rest[..n]] + Chunks(rest[n..])) == posts + [rest[..n]] + Chunks(rest[n..]);
      posts := posts + [rest[..n]];
      rest := rest[n..];
    }
    assert posts + [] == posts;
  }

  function Joined(posts: seq<seq<Item>>): seq<Item> {
    if posts == [] then [] else posts[0] + Joined(posts[1..])
  }

  lemma {:induction false} JoinedUnfolds(posts: seq<seq<Item>>)
    ensures Joined(posts) == if posts == [] then [] else posts[0] + Joined(posts[1..])
  {
  }

  lemma {:induction false} ChunksJoin(items: seq<Item>)
    ensures Joined(Chunks(items)) == items
    ensures |Chunks(items)| == (|items| + MAX_ITEMS - 1) / MAX_ITEMS
    ensures forall k :: 0 <= k < |Chunks(items)| ==> 0 < |Chunks(items)[k]| <= MAX_ITEMS
    ensures forall k :: 0 <= k < |Chunks(items)| - 1 ==> |Chunks(items)[k]| == MAX_ITEMS
    decreases |items|
  {
    if items != [] {
      var n := Min(|items|, MAX_ITEMS);
      ChunksJoin(items[n..]);
      assert items[..n] + items[n..] == items;
    }
  }

  lemma StatusFirstPermutes(items: seq<Item>)
    ensures multiset(StatusFirst(items)) == multiset(items) && |StatusFirst(items)| == |items|
    ensures (exists i :: 0 <= i < |items| && IsStatus(items[i])) ==> IsStatus(StatusFirst(items)[0])
  {
    hide IsStatus;
    var i := FirstAt(items, IsStatus);
    if i < |items| {
      assert items == items[..i] + [items[i]] + items[i + 1..];
    }
  }

  /** The event named "hub.status", byte for byte. */
  lemma StatusIsHubStatus(item: Item)
    ensures |HUB_STATUS| == |"hub.status"| && forall i :: 0 <= i < |HUB_STATUS| ==> HUB_STATUS[i] as int == "hub.status"[i] as int
    ensures IsStatus(item) <==> item.event == HUB_STATUS
  {
  }

  /** The hub's own item is the first of its kind; it goes to the front, and every other item keeps its place in line. */
  lemma OthersKeepTheirOrder(items: seq<Item>, i: nat)
    ensures (i < |items| && IsStatus(items[i]) && forall j :: 0 <= j < i ==> !IsStatus(items[j])) ==>
              Joined(Posts(items)) == [items[i]] + items[..i] + items[i + 1..]
    ensures (forall j :: 0 <= j < |items| ==> !IsStatus(items[j])) ==> Joined(Posts(items)) == items
  {
    hide IsStatus, Chunks, Joined;
    SplitConserves(items);
  }

  /**
   Splitting loses and repeats nothing: the posts joined are the items with the hub's own moved to the
   front and every other item in its order; as few posts as can be, never none, none too long.
   */
  lemma SplitConserves(items: seq<Item>)
    ensures var posts := Posts(items);
      && Joined(posts) == StatusFirst(items)
      && multiset(Joined(posts)) == multiset(items)
      && |posts| == (if items == [] then 1 else (|items| + 49) / 50)
      && (forall k :: 0 <= k < |posts| ==> |posts[k]| <= 50)
      && ((exists i :: 0 <= i < |items| && IsStatus(items[i])) ==> posts[0] != [] && IsStatus(posts[0][0]))
  {
    hide StatusFirst, Chunks, Joined, IsStatus;
    StatusFirstPermutes(items);
    if items == [] {
      var one: seq<seq<Item>> := [[]];
      assert one[1..] == [];
      JoinedUnfolds(one);
      JoinedUnfolds([]);
    } else {
      var all := StatusFirst(items);
      ChunksJoin(all);
      JoinedUnfolds(Chunks(all));
      assert all[0] == Chunks(all)[0][0];
    }
  }
}
