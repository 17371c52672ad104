/** Collection revisions: a 64-bit hash that mixes one byte at a time, and the
    snapshots that carry it. */
module Revision {
  import opened Types
  import Decimal
  import Ordering

  const OFFSET: Word64 := 1469598103934665603
  const PRIME: Word64 := 1099511628211
  /** The inverse of `PRIME` modulo 2^64. */
  const INVERSE: Word64 := 14886173955864302971

  type Byte = n: int | 0 <= n < 256

  /** Bitwise exclusive or of two non-negative integers. */
  function Xor(a: nat, b: nat): nat
    decreases a + b
  {
    if a == 0 && b == 0 then 0 else (a % 2 + b % 2) % 2 + 2 * Xor(a / 2, b / 2)
  }

  lemma {:induction false} XorStep(a: nat, b: nat)
    ensures Xor(a, b) % 2 == (a % 2 + b % 2) % 2
    ensures Xor(a, b) / 2 == Xor(a / 2, b / 2)
  {
    if a == 0 && b == 0 {
      assert Xor(a / 2, b / 2) == 0;
    }
  }

  lemma {:induction false} XorInvolutive(a: nat, b: nat)
    ensures Xor(Xor(a, b), b) == a
    decreases a + b
  {
    if a != 0 || b != 0 {
      XorInvolutive(a / 2, b / 2);
      XorTwice(a, b);
    }
  }

  lemma XorTwice(a: nat, b: nat)
    requires Xor(Xor(a / 2, b / 2), b / 2) == a / 2
    ensures Xor(Xor(a, b), b) == a
  {
    hide Xor;
    XorStep(a, b);
    XorStep(Xor(a, b), b);
  }

  lemma {:induction false} XorSymmetric(a: nat, b: nat)
    ensures Xor(a, b) == Xor(b, a)
    decreases a + b
  {
    if a != 0 || b != 0 { XorSymmetric(a / 2, b / 2); }
  }

  function Pow2(k: nat): nat {
    if k == 0 then 1 else 2 * Pow2(k - 1)
  }

  lemma {:induction false} XorBelow(a: nat, b: nat, k: nat)
    requires a < Pow2(k) && b < Pow2(k)
    ensures Xor(a, b) < Pow2(k)
    decreases k
  {
    if k > 0 && (a != 0 || b != 0) { XorBelow(a / 2, b / 2, k - 1); }
  }

  lemma Pow2Byte(k: nat)
    ensures Pow2(k + 8) == 256 * Pow2(k)
  {
    assert Pow2(k + 8) == 4 * Pow2(k + 6);
    assert Pow2(k + 6) == 4 * Pow2(k + 4);
    assert Pow2(k + 4) == 4 * Pow2(k + 2);
  }

  lemma Pow2Of64()
    ensures Pow2(64) == TWO_TO_THE_64
  {
    Pow2Byte(0); Pow2Byte(8); Pow2Byte(16); Pow2Byte(24);
    Pow2Byte(32); Pow2Byte(40); Pow2Byte(48); Pow2Byte(56);
  }

  lemma XorWord(h: Word64, b: Byte)
    ensures Xor(h, b) < TWO_TO_THE_64
  {
    Pow2Of64();
    XorBelow(h, b, 64);
  }

  /** `hash ^= b; hash *= FnvPrime;` with the product truncated to 64 bits. */
  function Mix(h: Word64, b: Byte): (r: Word64) {
    (Xor(h, b) * PRIME) % TWO_TO_THE_64
  }

  /** The inverse of `Mix` for a known byte. */
  function Unmix(h: Word64, b: Byte): Word64 {
    XorWord((h * INVERSE) % TWO_TO_THE_64, b);
    Xor((h * INVERSE) % TWO_TO_THE_64, b)
  }

  lemma ModProduct(x: int, p: int, m: int)
    requires m > 0
    ensures ((x % m) * p) % m == (x * p) % m
  {
    var q, r := x / m, x % m;
    assert x * p == r * p + m * (q * p) by {
      assert x == q * m + r;
      assert (q * m + r) * p == q * m * p + r * p;
      assert q * m * p == m * (q * p);
    }
    ModShift(r * p, q * p, m);
  }

  lemma ModShift(r: int, k: int, m: int)
    requires m > 0
    ensures (r + m * k) % m == r % m
  {
    var q := r / m;
    assert r + m * k == m * (q + k) + r % m by {
      assert m * (q + k) == m * q + m * k;
    }
    ModUnique(r + m * k, q + k, r % m, m);
  }

  lemma ModUnique(x: int, q: int, r: int, m: int)
    requires m > 0 && x == m * q + r && 0 <= r < m
    ensures x % m == r
  {
    var q', r' := x / m, x % m;
    assert m * (q - q') == r' - r by {
      assert m * (q - q') == m * q - m * q';
    }
    if q > q' {
      MulGe(m, q - q');
    } else if q < q' {
      assert m * (q' - q) == m * q' - m * q;
      MulGe(m, q' - q);
    }
  }

  lemma MulGe(m: int, k: int)
    requires m > 0 && k >= 1
    ensures m * k >= m
  {
  }

  /** Multiplying by the prime and then by its inverse is the identity modulo
      2^64, in either order. */
  lemma PrimeInvertible(x: Word64)
    ensures (((x * PRIME) % TWO_TO_THE_64) * INVERSE) % TWO_TO_THE_64 == x
    ensures (((x * INVERSE) % TWO_TO_THE_64) * PRIME) % TWO_TO_THE_64 == x
  {
    ModProduct(x * PRIME, INVERSE, TWO_TO_THE_64);
    ModProduct(x * INVERSE, PRIME, TWO_TO_THE_64);
    assert x * PRIME * INVERSE == x + TWO_TO_THE_64 * (x * 887285111055);
    assert x * INVERSE * PRIME == x + TWO_TO_THE_64 * (x * 887285111055);
    ModShift(x, x * 887285111055, TWO_TO_THE_64);
  }

  /** Every mixing step is a bijection on 64-bit states. */
  lemma MixBijective(h: Word64, b: Byte)
    ensures Unmix(Mix(h, b), b) == h
    ensures Mix(Unmix(h, b), b) == h
  {
    XorWord(h, b);
    PrimeInvertible(Xor(h, b));
    XorInvolutive(h, b);
    var u := (h * INVERSE) % TWO_TO_THE_64;
    XorInvolutive(u, b);
    PrimeInvertible(h);
  }

  /** From one state, different bytes lead to different states. */
  lemma MixSeparatesBytes(h: Word64, b: Byte, c: Byte)
    requires Mix(h, b) == Mix(h, c)
    ensures b == c
  {
    XorWord(h, b);
    XorWord(h, c);
    PrimeInvertible(Xor(h, b));
    PrimeInvertible(Xor(h, c));
    XorSymmetric(h, b);
    XorSymmetric(h, c);
    XorInvolutive(b, h);
    XorInvolutive(c, h);
  }

  /** The state after a stream of bytes. */
  function MixAll(h: Word64, bytes: seq<Byte>): Word64 {
    if bytes == [] then h else Mix(MixAll(h, bytes[..|bytes| - 1]), bytes[|bytes| - 1])
  }

  lemma {:induction false} MixConcat(h: Word64, a: seq<Byte>, b: seq<Byte>)
    ensures MixAll(h, a + b) == MixAll(MixAll(h, a), b)
  {
    if b == [] {
      assert a + b == a;
    } else {
      var front := b[..|b| - 1];
      MixConcat(h, a, front);
      assert (a + b)[..|a + b| - 1] == a + front;
    }
  }

  /** Running the same bytes from two states keeps them apart. */
  lemma {:induction false} MixAllInjective(h: Word64, k: Word64, bytes: seq<Byte>)
    requires MixAll(h, bytes) == MixAll(k, bytes)
    ensures h == k
  {
    if bytes != [] {
      var n := |bytes| - 1;
      MixBijective(MixAll(h, bytes[..n]), bytes[n]);
      MixBijective(MixAll(k, bytes[..n]), bytes[n]);
      MixAllInjective(h, k, bytes[..n]);
    }
  }

  /** Streams of the same length that differ in exactly one byte never collide. */
  lemma OneByteNeverCollides(h: Word64, prefix: seq<Byte>, b: Byte, c: Byte, suffix: seq<Byte>)
    requires b != c
    ensures MixAll(h, prefix + [b] + suffix) != MixAll(h, prefix + [c] + suffix)
  {
    MixConcat(h, prefix + [b], suffix);
    MixConcat(h, prefix + [c], suffix);
    var hb, hc := MixAll(h, prefix + [b]), MixAll(h, prefix + [c]);
    assert (prefix + [b])[..|prefix|] == prefix == (prefix + [c])[..|prefix|];
    if MixAll(hb, suffix) == MixAll(hc, suffix) {
      MixAllInjective(hb, hc, suffix);
      MixSeparatesBytes(MixAll(h, prefix), b, c);
    }
  }

  function BytesOf(s: string): seq<Byte> {
    seq(|s|, i requires 0 <= i < |s| => s[i] as int % 256)
  }

  /** The eight bytes of a word, least significant first. */
  function WordBytes(v: Word64): (bytes: seq<Byte>)
    ensures |bytes| == 8
  {
    [v % 0x100, v / 0x100 % 0x100, v / 0x1_0000 % 0x100, v / 0x100_0000 % 0x100,
     v / 0x1_0000_0000 % 0x100, v / 0x100_0000_0000 % 0x100,
     v / 0x1_0000_0000_0000 % 0x100, v / 0x100_0000_0000_0000 % 0x100]
  }

  function ValueTypeName(v: Value): string {
    match v
    case Boolean(_) => "bool"
    case Number(_) => "number"
    case Text(_) => "string"
    case Vector3(_, _, _) => "vector3"
  }

  function PayloadBytes(v: Value): seq<Byte> {
    match v
    case Boolean(flag) => [if flag then 1 else 0]
    case Number(d) => WordBytes(d.bits)
    case Text(s) => BytesOf(s)
    case Vector3(x, y, z) => WordBytes(x.bits) + WordBytes(y.bits) + WordBytes(z.bits)
  }

  function HashValue(v: Value): Word64 {
    MixAll(OFFSET, BytesOf(ValueTypeName(v)) + PayloadBytes(v))
  }

  function TargetKindName(kind: TargetKind): string {
    match kind
    case World => "world"
    case OnlinePlayer => "online_player"
    case OfflinePlayer => "offline_player"
    case LoadedEntity => "loaded_entity"
    case StoredEntity => "stored_entity"
    case PlayerInventorySlot => "player_inventory_slot"
    case PlayerArmorSlot => "player_armor_slot"
    case PlayerOffhandSlot => "player_offhand_slot"
    case PlayerEnderChestSlot => "player_ender_chest_slot"
    case BlockContainerSlot => "block_container_slot"
    case DroppedItem => "dropped_item"
    case BlockEntity => "block_entity"
  }

  function DescribeTarget(target: Target): string {
    TargetKindName(target.kind) + ":" + target.worldId
    + (if target.xuid != "" then ":xuid=" + target.xuid else "")
    + (if target.entityId != "" then ":entity=" + target.entityId else "")
    + (if target.itemEntityId != "" then ":item=" + target.itemEntityId else "")
    + (match target.block
       case None => ""
       case Some(block) =>
         ":" + block.dimension + "@" + Decimal.OfInt(block.x) + "," + Decimal.OfInt(block.y)
         + "," + Decimal.OfInt(block.z))
    + (if target.slot >= 0 then ":slot=" + Decimal.OfInt(target.slot) else "")
  }

  /** The bytes that describe the given properties, key by key. */
  function EntriesStream(properties: Properties, keys: seq<string>): seq<Byte>
    requires forall k :: k in keys ==> k in properties
  {
    if keys == [] then []
    else
      var n := |keys| - 1;
      EntriesStream(properties, keys[..n]) + BytesOf(keys[n]) + WordBytes(HashValue(properties[keys[n]]))
  }

  function HeaderStream(ref: CollectionRef, present: bool): seq<Byte> {
    BytesOf(DescribeTarget(ref.target)) + BytesOf(ref.collection) + WordBytes(if present then 1 else 0)
  }

  /** The byte stream a revision hashes. */
  function Stream(ref: CollectionRef, present: bool, properties: Properties): seq<Byte> {
    HeaderStream(ref, present) + EntriesStream(properties, Ordering.SortedKeys(properties.Keys))
  }

  /** The revision of a collection. */
  function RevisionOf(ref: CollectionRef, present: bool, properties: Properties): Word64 {
    MixAll(OFFSET, Stream(ref, present, properties))
  }

  method MixBytes(hash: Word64, data: seq<Byte>) returns (h: Word64)
    ensures h == MixAll(hash, data)
  {
    h := hash;
    for i := 0 to |data|
      invariant h == MixAll(hash, data[..i])
    {
      assert data[..i + 1][..i] == data[..i];
      h := Mix(h, data[i]);
    }
    assert data[..|data|] == data;
  }

  method MixEntries(start: Word64, properties: Properties, keys: seq<string>) returns (hash: Word64)
    requires forall k :: k in keys ==> k in properties
    ensures hash == MixAll(start, EntriesStream(properties, keys))
  {
    hash := start;
    for i := 0 to |keys|
      invariant hash == MixAll(start, EntriesStream(properties, keys[..i]))
    {
      ghost var done := EntriesStream(properties, keys[..i]);
      var key, value := BytesOf(keys[i]), WordBytes(HashValue(properties[keys[i]]));
      hash := MixBytes(hash, key);
      hash := MixBytes(hash, value);
      EntriesStep(start, properties, keys, i);
    }
    assert keys[..|keys|] == keys;
  }

  lemma EntriesStep(start: Word64, properties: Properties, keys: seq<string>, i: nat)
    requires i < |keys| && forall k :: k in keys ==> k in properties
    ensures MixAll(start, EntriesStream(properties, keys[..i + 1]))
         == MixAll(MixAll(MixAll(start, EntriesStream(properties, keys[..i])), BytesOf(keys[i])),
                   WordBytes(HashValue(properties[keys[i]])))
  {
    var key, value := BytesOf(keys[i]), WordBytes(HashValue(properties[keys[i]]));
    var done := EntriesStream(properties, keys[..i]);
    assert keys[..i + 1][..i] == keys[..i];
    assert EntriesStream(properties, keys[..i + 1]) == done + key + value;
    MixConcat(start, done, key);
    MixConcat(start, done + key, value);
  }

  /** Threads one hash through the target, the name, the existence number and
      every entry; the result is the hash of their concatenation. */
  method CalculateRevision(ref: CollectionRef, present: bool, properties: Properties) returns (hash: Word64)
    ensures hash == RevisionOf(ref, present, properties)
  {
    var target, name := BytesOf(DescribeTarget(ref.target)), BytesOf(ref.collection);
    var bit := WordBytes(if present then 1 else 0);
    hash := MixBytes(OFFSET, target);
    hash := MixBytes(hash, name);
    hash := MixBytes(hash, bit);
    var keys := Ordering.SortedKeys(properties.Keys);
    hash := MixEntries(hash, properties, keys);
    FourParts(target, name, bit, EntriesStream(properties, keys));
  }

  lemma FourParts(a: seq<Byte>, b: seq<Byte>, c: seq<Byte>, d: seq<Byte>)
    ensures MixAll(OFFSET, a + b + c + d) == MixAll(MixAll(MixAll(MixAll(OFFSET, a), b), c), d)
  {
    MixConcat(OFFSET, a, b);
    MixConcat(OFFSET, a + b, c);
    MixConcat(OFFSET, a + b + c, d);
  }

  /** A missing collection and an existing empty one never share a revision. */
  lemma MissingDiffersFromEmpty(ref: CollectionRef)
    ensures RevisionOf(ref, false, map[]) != RevisionOf(ref, true, map[])
  {
    var p := BytesOf(DescribeTarget(ref.target)) + BytesOf(ref.collection);
    var zeros: seq<Byte> := [0, 0, 0, 0, 0, 0, 0];
    assert WordBytes(0) == [0] + zeros && WordBytes(1) == [1] + zeros;
    var none: Properties := map[];
    assert Ordering.SortedKeys(none.Keys) == [];
    assert Stream(ref, false, none) == p + [0] + zeros;
    assert Stream(ref, true, none) == p + [1] + zeros;
    OneByteNeverCollides(OFFSET, p, 0, 1, zeros);
  }

  /** Two collections with the same target and contents whose names differ in
      exactly one byte never share a revision. */
  lemma NamesDifferingInOneByte(
    target: Target, left: string, a: char, b: char, right: string, present: bool, properties: Properties)
    requires a as int < 256 && b as int < 256 && a != b
    ensures RevisionOf(CollectionRef(target, left + [a] + right), present, properties)
         != RevisionOf(CollectionRef(target, left + [b] + right), present, properties)
  {
    var d := BytesOf(DescribeTarget(target));
    var bit := WordBytes(if present then 1 else 0);
    var entries := EntriesStream(properties, Ordering.SortedKeys(properties.Keys));
    OneByteInTheMiddle(d, left, a, right, bit, entries);
    OneByteInTheMiddle(d, left, b, right, bit, entries);
    OneByteNeverCollides(OFFSET, d + BytesOf(left), a as int, b as int, BytesOf(right) + bit + entries);
  }

  lemma OneByteInTheMiddle(
    d: seq<Byte>, left: string, c: char, right: string, bit: seq<Byte>, entries: seq<Byte>)
    requires c as int < 256
    ensures d + BytesOf(left + [c] + right) + bit + entries
         == d + BytesOf(left) + [c as int] + (BytesOf(right) + bit + entries)
  {
    assert BytesOf(left + [c] + right) == BytesOf(left) + [c as int] + BytesOf(right);
  }

  function EstimateStoredBytes(key: string, value: Value): nat {
    |key| + 8 + match value
                case Boolean(_) => 1
                case Number(_) => 8
                case Text(s) => |s|
                case Vector3(_, _, _) => 24
  }

  function ByteCount(properties: Properties, keys: seq<string>): Word64
    requires forall k :: k in keys ==> k in properties
  {
    if keys == [] then 0
    else
      var n := |keys| - 1;
      (ByteCount(properties, keys[..n]) + EstimateStoredBytes(keys[n], properties[keys[n]])) % TWO_TO_THE_64
  }

  function SnapshotOf(ref: CollectionRef, properties: Properties, present: bool): Snapshot {
    Snapshot(ref, properties, ByteCount(properties, Ordering.SortedKeys(properties.Keys)),
             RevisionOf(ref, present, properties), present, true, true, true)
  }

  method CountBytes(properties: Properties, keys: seq<string>) returns (count: Word64)
    requires forall k :: k in keys ==> k in properties
    ensures count == ByteCount(properties, keys)
  {
    count := 0;
    for i := 0 to |keys|
      invariant count == ByteCount(properties, keys[..i])
    {
      assert keys[..i + 1][..i] == keys[..i];
      count := (count + EstimateStoredBytes(keys[i], properties[keys[i]])) % TWO_TO_THE_64;
    }
    assert keys[..|keys|] == keys;
  }

  method MakeSnapshot(ref: CollectionRef, properties: Properties, present: bool) returns (out: Snapshot)
    ensures out == SnapshotOf(ref, properties, present)
  {
    var count := CountBytes(properties, Ordering.SortedKeys(properties.Keys));
    var revision := CalculateRevision(ref, present, properties);
    out := Snapshot(ref, properties, count, revision, present, true, true, true);
  }
}
