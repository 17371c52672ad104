/** The iteration order of `std::map` and `std::set`: every set has one enumeration
    that ascends in a total order.  Strings are ordered byte by byte, collections field
    by field. */
module Ordering {
  import opened Types

  predicate LexLess(a: string, b: string) {
    if b == "" then false
    else if a == "" then true
    else a[0] < b[0] || (a[0] == b[0] && LexLess(a[1..], b[1..]))
  }

  lemma {:induction false} LexTotal(a: string, b: string)
    ensures LexLess(a, b) || a == b || LexLess(b, a)
  {
    if a != "" && b != "" && a[0] == b[0] {
      LexTotal(a[1..], b[1..]);
      assert a == [a[0]] + a[1..] && b == [b[0]] + b[1..];
    }
  }

  lemma {:induction false} LexAsymmetric(a: string, b: string)
    requires LexLess(a, b)
    ensures !LexLess(b, a) && a != b
  {
    if a != "" && a[0] == b[0] {
      LexAsymmetric(a[1..], b[1..]);
    }
  }

  lemma {:induction false} LexTransitive(a: string, b: string, c: string)
    requires LexLess(a, b) && LexLess(b, c)
    ensures LexLess(a, c)
  {
    if a != "" && a[0] == b[0] == c[0] {
      LexTransitive(a[1..], b[1..], c[1..]);
    }
  }

  /** A strict total order. */
  ghost predicate Orders<T(!new)>(less: (T, T) -> bool) {
    && (forall a, b :: less(a, b) ==> !less(b, a))
    && (forall a, b :: less(a, b) || a == b || less(b, a))
    && (forall a, b, c :: less(a, b) && less(b, c) ==> less(a, c))
  }

  predicate IsLeast<T(==)>(less: (T, T) -> bool, k: T, keys: set<T>) {
    k in keys && forall other :: other in keys && other != k ==> less(k, other)
  }

  lemma {:induction false} LeastExists<T(!new)>(less: (T, T) -> bool, keys: set<T>)
    requires Orders(less) && keys != {}
    ensures exists least :: IsLeast(less, least, keys)
  {
    var k :| k in keys;
    var rest := keys - {k};
    if rest == {} {
      assert keys == {k};
      assert IsLeast(less, k, keys);
    } else {
      LeastExists(less, rest);
      var r :| IsLeast(less, r, rest);
      assert IsLeast(less, if less(k, r) then k else r, keys);
    }
  }

  lemma LeastUnique<T(!new)>(less: (T, T) -> bool, a: T, b: T, keys: set<T>)
    requires Orders(less) && IsLeast(less, a, keys) && IsLeast(less, b, keys)
    ensures a == b
  {
  }

  /** The first element of a non-empty `std::set`. */
  function Least<T(==, !new)>(less: (T, T) -> bool, keys: set<T>): (k: T)
    requires Orders(less) && keys != {}
    ensures IsLeast(less, k, keys)
  {
    LeastExists(less, keys);
    assert forall a, b :: IsLeast(less, a, keys) && IsLeast(less, b, keys) ==> a == b by {
      forall a, b | IsLeast(less, a, keys) && IsLeast(less, b, keys) ensures a == b { LeastUnique(less, a, b, keys); }
    }
    var k :| k in keys && IsLeast(less, k, keys);
    k
  }

  predicate Ascending<T>(less: (T, T) -> bool, s: seq<T>) {
    forall i, j :: 0 <= i < j < |s| ==> less(s[i], s[j])
  }

  /** The elements of a set in iteration order. */
  function Sorted<T(==, !new)>(less: (T, T) -> bool, keys: set<T>): (s: seq<T>)
    requires Orders(less)
    ensures |s| == |keys|
    ensures forall k :: k in s <==> k in keys
    ensures Ascending(less, s)
  {
    if keys == {} then []
    else
      var k := Least(less, keys);
      var rest := Sorted(less, keys - {k});
      assert forall j :: 0 <= j < |rest| ==> rest[j] in rest;
      [k] + rest
  }

  /** There is only one ascending enumeration: whatever is computed by walking a set
      or map is a function of it. */
  lemma {:induction false} SortedUnique<T(!new)>(less: (T, T) -> bool, a: seq<T>, b: seq<T>)
    requires Orders(less) && Ascending(less, a) && Ascending(less, b)
    requires forall k :: k in a <==> k in b
    ensures a == b
  {
    assert (a == [] || a[0] in a) && (b == [] || b[0] in b);
    if a == [] || b == [] {
    } else {
      assert a[0] in b && b[0] in a;
      assert a[0] == b[0];
      forall k ensures k in a[1..] <==> k in b[1..] {
        if k in a[1..] { assert less(a[0], k) && k in a; }
        if k in b[1..] { assert less(b[0], k) && k in b; }
      }
      SortedUnique(less, a[1..], b[1..]);
      assert a == [a[0]] + a[1..] && b == [b[0]] + b[1..];
    }
  }

  // Keys

  lemma LexOrders()
    ensures Orders(LexLess)
  {
    forall a, b | LexLess(a, b) ensures !LexLess(b, a) && a != b { LexAsymmetric(a, b); }
    forall a, b ensures LexLess(a, b) || a == b || LexLess(b, a) { LexTotal(a, b); }
    forall a, b, c | LexLess(a, b) && LexLess(b, c) ensures LexLess(a, c) { LexTransitive(a, b, c); }
  }

  predicate StrictlySorted(s: seq<string>) {
    forall i, j :: 0 <= i < j < |s| ==> LexLess(s[i], s[j])
  }

  /** The keys of a map in iteration order. */
  function SortedKeys(keys: set<string>): (s: seq<string>)
    ensures |s| == |keys|
    ensures forall k :: k in s <==> k in keys
    ensures StrictlySorted(s)
  {
    LexOrders();
    Sorted(LexLess, keys)
  }

  /** Walks a key set in order, for callers to whom only the members matter. */
  method Enumerate(keys: set<string>) returns (order: seq<string>)
    ensures forall k :: k in order <==> k in keys
  {
    order := SortedKeys(keys);
  }

  // Collections

  function KindNumber(kind: TargetKind): nat {
    match kind
    case World => 0
    case OnlinePlayer => 1
    case OfflinePlayer => 2
    case LoadedEntity => 3
    case StoredEntity => 4
    case PlayerInventorySlot => 5
    case PlayerArmorSlot => 6
    case PlayerOffhandSlot => 7
    case PlayerEnderChestSlot => 8
    case BlockContainerSlot => 9
    case DroppedItem => 10
    case BlockEntity => 11
  }

  function SectionNumber(section: InventorySection): nat {
    match section
    case NoSection => 0
    case MainSection => 1
    case ArmorSection => 2
    case OffhandSection => 3
    case EnderChestSection => 4
    case BlockContainerSection => 5
  }

  predicate LocationLess(a: BlockLocation, b: BlockLocation) {
    if a.dimension != b.dimension then LexLess(a.dimension, b.dimension)
    else if a.x != b.x then a.x < b.x
    else if a.y != b.y then a.y < b.y
    else a.z < b.z
  }

  /** No location comes before every location. */
  predicate BlockLess(a: Option<BlockLocation>, b: Option<BlockLocation>) {
    b.Some? && (a.Some? ==> LocationLess(a.value, b.value))
  }

  /** Targets are compared field by field, in the order of their declaration. */
  predicate TargetLess(a: Target, b: Target) {
    if a.kind != b.kind then KindNumber(a.kind) < KindNumber(b.kind)
    else if a.worldId != b.worldId then LexLess(a.worldId, b.worldId)
    else if a.xuid != b.xuid then LexLess(a.xuid, b.xuid)
    else if a.entityId != b.entityId then LexLess(a.entityId, b.entityId)
    else if a.block != b.block then BlockLess(a.block, b.block)
    else if a.section != b.section then SectionNumber(a.section) < SectionNumber(b.section)
    else if a.slot != b.slot then a.slot < b.slot
    else LexLess(a.itemEntityId, b.itemEntityId)
  }

  predicate RefLess(a: CollectionRef, b: CollectionRef) {
    if a.target != b.target then TargetLess(a.target, b.target) else LexLess(a.collection, b.collection)
  }

  lemma LocationOrders()
    ensures Orders(LocationLess)
  {
    LexOrders();
    hide LexLess;
  }

  lemma BlockOrders()
    ensures Orders(BlockLess)
  {
    LocationOrders();
    hide LocationLess;
  }

  lemma TargetOrders()
    ensures Orders(TargetLess)
  {
    LexOrders();
    BlockOrders();
    hide LexLess, BlockLess;
  }

  lemma RefOrders()
    ensures Orders(RefLess)
  {
    LexOrders();
    TargetOrders();
    hide LexLess, TargetLess;
  }

  /** The members of a `std::set<CollectionRef>` in iteration order. */
  function SortedRefs(refs: set<CollectionRef>): (s: seq<CollectionRef>)
    ensures |s| == |refs|
    ensures forall r :: r in s <==> r in refs
    ensures Ascending(RefLess, s)
  {
    RefOrders();
    Sorted(RefLess, refs)
  }
}
