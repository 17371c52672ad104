/** What revisions, value hashes and byte counts tell apart. */
module RevisionLaws {
  import opened Types
  import opened Revision
  import Decimal
  import Ordering

  // Mixing

  /** A byte goes in before the multiplication, not after it. */
  lemma MixMultipliesLast(h: Word64, b: Byte)
    ensures Mix(0, b) == b * PRIME
    ensures Mix(h, 0) == (h * PRIME) % TWO_TO_THE_64
  {
    XorWithZero(b);
    XorWithZero(h);
    XorSymmetric(0, b);
    hide Xor;
  }

  lemma {:induction false} XorWithZero(a: nat)
    ensures Xor(a, 0) == a
  {
    if a > 0 { XorWithZero(a / 2); }
  }

  // Value hashes

  /** The value at a place of the stream that differs in one byte has another hash. */
  lemma PayloadDecides(v: Value, w: Value, left: seq<Byte>, a: Byte, b: Byte, right: seq<Byte>)
    requires ValueTypeName(v) == ValueTypeName(w) && a != b
    requires PayloadBytes(v) == left + [a] + right && PayloadBytes(w) == left + [b] + right
    ensures HashValue(v) != HashValue(w)
  {
    var name := BytesOf(ValueTypeName(v));
    assert name + (left + [a] + right) == (name + left) + [a] + right;
    assert name + (left + [b] + right) == (name + left) + [b] + right;
    hide MixAll, PayloadBytes, ValueTypeName;
    OneByteNeverCollides(OFFSET, name + left, a, b, right);
  }

  /** The two Booleans have different hashes. */
  lemma BooleansDiffer()
    ensures HashValue(Boolean(false)) != HashValue(Boolean(true))
  {
    assert PayloadBytes(Boolean(false)) == [] + [0] + [] && PayloadBytes(Boolean(true)) == [] + [1] + [];
    hide HashValue;
    PayloadDecides(Boolean(false), Boolean(true), [], 0, 1, []);
  }

  /** Texts that differ in one byte have different hashes. */
  lemma TextsDiffer(left: string, a: char, b: char, right: string)
    requires a as int < 256 && b as int < 256 && a != b
    ensures HashValue(Text(left + [a] + right)) != HashValue(Text(left + [b] + right))
  {
    TextPayload(left, a, right);
    TextPayload(left, b, right);
    hide HashValue, PayloadBytes;
    PayloadDecides(Text(left + [a] + right), Text(left + [b] + right), BytesOf(left), a as int, b as int,
                   BytesOf(right));
  }

  lemma TextPayload(left: string, c: char, right: string)
    requires c as int < 256
    ensures PayloadBytes(Text(left + [c] + right)) == BytesOf(left) + [c as int] + BytesOf(right)
  {
  }

  /** Numbers, and coordinates of vectors, whose bits differ in one byte have different
      hashes. */
  lemma NumbersDiffer(
    d: Double, e: Double, y: Double, z: Double, left: seq<Byte>, a: Byte, b: Byte, right: seq<Byte>)
    requires WordBytes(d.bits) == left + [a] + right && WordBytes(e.bits) == left + [b] + right && a != b
    ensures HashValue(Number(d)) != HashValue(Number(e))
    ensures HashValue(Vector3(d, y, z)) != HashValue(Vector3(e, y, z))
    ensures HashValue(Vector3(y, d, z)) != HashValue(Vector3(y, e, z))
    ensures HashValue(Vector3(y, z, d)) != HashValue(Vector3(y, z, e))
  {
    PayloadOfNumbers(d, y, z);
    PayloadOfNumbers(e, y, z);
    hide HashValue, PayloadBytes, WordBytes;
    var p, q := WordBytes(y.bits), WordBytes(z.bits);
    PayloadDecides(Number(d), Number(e), left, a, b, right);
    assert left + [a] + right + p + q == left + [a] + (right + p + q);
    assert left + [b] + right + p + q == left + [b] + (right + p + q);
    PayloadDecides(Vector3(d, y, z), Vector3(e, y, z), left, a, b, right + p + q);
    assert p + (left + [a] + right) + q == (p + left) + [a] + (right + q);
    assert p + (left + [b] + right) + q == (p + left) + [b] + (right + q);
    PayloadDecides(Vector3(y, d, z), Vector3(y, e, z), p + left, a, b, right + q);
    assert p + q + (left + [a] + right) == (p + q + left) + [a] + right;
    assert p + q + (left + [b] + right) == (p + q + left) + [b] + right;
    PayloadDecides(Vector3(y, z, d), Vector3(y, z, e), p + q + left, a, b, right);
  }

  lemma PayloadOfNumbers(d: Double, y: Double, z: Double)
    ensures PayloadBytes(Number(d)) == WordBytes(d.bits)
    ensures PayloadBytes(Vector3(d, y, z)) == WordBytes(d.bits) + WordBytes(y.bits) + WordBytes(z.bits)
    ensures PayloadBytes(Vector3(y, d, z)) == WordBytes(y.bits) + WordBytes(d.bits) + WordBytes(z.bits)
    ensures PayloadBytes(Vector3(y, z, d)) == WordBytes(y.bits) + WordBytes(z.bits) + WordBytes(d.bits)
  {
    hide WordBytes;
  }

  /** The eight bytes of a word are its digits to the base 256, the lowest first. */
  lemma WordBytesAreDigits(v: Word64)
    ensures v == FromDigits(WordBytes(v))
  {
    SplitWord(v);
  }

  /** The number with the given digits, the lowest first. */
  function FromDigits(b: seq<int>): int
    requires |b| == 8
  {
    b[0] + 0x100 * b[1] + 0x1_0000 * b[2] + 0x100_0000 * b[3] + 0x1_0000_0000 * b[4]
    + 0x100_0000_0000 * b[5] + 0x1_0000_0000_0000 * b[6] + 0x100_0000_0000_0000 * b[7]
  }

  /** The eight bytes of a word determine it, so numbers that differ do so in some byte. */
  lemma WordBytesInjective(v: Word64, w: Word64)
    requires WordBytes(v) == WordBytes(w)
    ensures v == w
  {
    hide WordBytes, FromDigits;
    WordBytesAreDigits(v);
    WordBytesAreDigits(w);
  }

  lemma SplitWord(v: Word64)
    ensures v == v % 0x100 + 0x100 * (v / 0x100 % 0x100) + 0x1_0000 * (v / 0x1_0000 % 0x100)
              + 0x100_0000 * (v / 0x100_0000 % 0x100) + 0x1_0000_0000 * (v / 0x1_0000_0000 % 0x100)
              + 0x100_0000_0000 * (v / 0x100_0000_0000 % 0x100)
              + 0x1_0000_0000_0000 * (v / 0x1_0000_0000_0000 % 0x100)
              + 0x100_0000_0000_0000 * (v / 0x100_0000_0000_0000 % 0x100)
  {
    FourDigits(v);
    FourDigits(v / 0x1_0000_0000);
    Quotients(v);
    assert v / 0x100_0000_0000_0000 < 0x100;
    hide *;
  }

  lemma FourDigits(u: nat)
    ensures u == u % 0x100 + 0x100 * (u / 0x100 % 0x100) + 0x1_0000 * (u / 0x1_0000 % 0x100)
              + 0x100_0000 * (u / 0x100_0000 % 0x100) + 0x1_0000_0000 * (u / 0x1_0000_0000)
  {
    var a, b, c := u / 0x100, u / 0x1_0000, u / 0x100_0000;
    LastDigit(u);
    LastDigit(a);
    LastDigit(b);
    LastDigit(c);
    SecondDigit(u);
    ThirdDigit(u);
    FourthDigit(u);
  }

  lemma LastDigit(u: nat)
    ensures u == u % 0x100 + 0x100 * (u / 0x100)
  {
  }

  lemma SecondDigit(u: nat)
    ensures u / 0x100 / 0x100 == u / 0x1_0000
  {
  }

  lemma ThirdDigit(u: nat)
    ensures u / 0x1_0000 / 0x100 == u / 0x100_0000
  {
  }

  lemma FourthDigit(u: nat)
    ensures u / 0x100_0000 / 0x100 == u / 0x1_0000_0000
  {
  }

  lemma Quotients(v: Word64)
    ensures v / 0x1_0000_0000 / 0x100 == v / 0x100_0000_0000
    ensures v / 0x1_0000_0000 / 0x1_0000 == v / 0x1_0000_0000_0000
    ensures v / 0x1_0000_0000 / 0x100_0000 == v / 0x100_0000_0000_0000
    ensures v / 0x1_0000_0000 / 0x1_0000_0000 == 0
  {
  }

  // Collections

  /** What a revision hashes, cut where the description of the target may differ. */
  lemma DescriptionDecides(
    s: Target, t: Target, left: string, a: char, b: char, right: string, name: string, present: bool,
    properties: Properties)
    requires DescribeTarget(s) == left + [a] + right && DescribeTarget(t) == left + [b] + right
    requires a as int < 256 && b as int < 256 && a != b
    ensures RevisionOf(CollectionRef(s, name), present, properties)
         != RevisionOf(CollectionRef(t, name), present, properties)
  {
    var entries := EntriesStream(properties, Ordering.SortedKeys(properties.Keys));
    var bit := WordBytes(if present then 1 else 0);
    hide DescribeTarget, MixAll, EntriesStream, WordBytes;
    StreamCut(s, left, a, right, name, present, properties);
    StreamCut(t, left, b, right, name, present, properties);
    OneByteNeverCollides(OFFSET, BytesOf(left), a as int, b as int,
                         BytesOf(right) + BytesOf(name) + bit + entries);
  }

  lemma StreamCut(
    t: Target, left: string, c: char, right: string, name: string, present: bool, properties: Properties)
    requires DescribeTarget(t) == left + [c] + right && c as int < 256
    ensures Stream(CollectionRef(t, name), present, properties)
         == BytesOf(left) + [c as int]
            + (BytesOf(right) + BytesOf(name) + WordBytes(if present then 1 else 0)
               + EntriesStream(properties, Ordering.SortedKeys(properties.Keys)))
  {
    hide DescribeTarget, EntriesStream, WordBytes, BytesOf;
    CutBytes(left, c, right);
    Regrouped5(BytesOf(left), [c as int], BytesOf(right), BytesOf(name), WordBytes(if present then 1 else 0),
               EntriesStream(properties, Ordering.SortedKeys(properties.Keys)));
  }

  lemma CutBytes(left: string, c: char, right: string)
    requires c as int < 256
    ensures BytesOf(left + [c] + right) == BytesOf(left) + [c as int] + BytesOf(right)
  {
  }

  lemma Regrouped5(a: seq<Byte>, b: seq<Byte>, c: seq<Byte>, d: seq<Byte>, e: seq<Byte>, f: seq<Byte>)
    ensures a + b + c + d + e + f == a + b + (c + d + e + f)
  {
  }

  /** Collections of worlds whose identifiers differ in one byte have different
      revisions. */
  lemma WorldsDiffer(
    target: Target, left: string, a: char, b: char, right: string, name: string, present: bool,
    properties: Properties)
    requires a as int < 256 && b as int < 256 && a != b
    ensures RevisionOf(CollectionRef(target.(worldId := left + [a] + right), name), present, properties)
         != RevisionOf(CollectionRef(target.(worldId := left + [b] + right), name), present, properties)
  {
    var back := WorldDescribed(target, left, a, right);
    var other := WorldDescribed(target, left, b, right);
    hide RevisionOf, DescribeTarget;
    DescriptionDecides(target.(worldId := left + [a] + right), target.(worldId := left + [b] + right),
                       TargetKindName(target.kind) + ":" + left, a, b, right + back, name, present, properties);
  }

  /** The parts of a description after the world's identifier. */
  function Rest(target: Target): string {
    var xuid := if target.xuid != "" then ":xuid=" + target.xuid else "";
    var entity := if target.entityId != "" then ":entity=" + target.entityId else "";
    var item := if target.itemEntityId != "" then ":item=" + target.itemEntityId else "";
    var block := match target.block
                 case None => ""
                 case Some(block) =>
                   ":" + block.dimension + "@" + Decimal.OfInt(block.x) + "," + Decimal.OfInt(block.y)
                   + "," + Decimal.OfInt(block.z);
    var slot := if target.slot >= 0 then ":slot=" + Decimal.OfInt(target.slot) else "";
    xuid + (entity + (item + (block + slot)))
  }

  lemma Regrouped(a: string, b: string, c: string, d: string, e: string, f: string)
    ensures a + b + c + d + e + f == a + (b + (c + (d + (e + f))))
  {
  }

  lemma DescribedRest(target: Target)
    ensures DescribeTarget(target) == TargetKindName(target.kind) + ":" + target.worldId + Rest(target)
  {
    hide Decimal.OfInt, TargetKindName;
    Regrouped(TargetKindName(target.kind) + ":" + target.worldId,
              if target.xuid != "" then ":xuid=" + target.xuid else "",
              if target.entityId != "" then ":entity=" + target.entityId else "",
              if target.itemEntityId != "" then ":item=" + target.itemEntityId else "",
              match target.block
              case None => ""
              case Some(block) =>
                ":" + block.dimension + "@" + Decimal.OfInt(block.x) + "," + Decimal.OfInt(block.y)
                + "," + Decimal.OfInt(block.z),
              if target.slot >= 0 then ":slot=" + Decimal.OfInt(target.slot) else "");
  }

  lemma WorldDescribed(target: Target, left: string, c: char, right: string) returns (back: string)
    ensures back == Rest(target.(worldId := ""))
    ensures DescribeTarget(target.(worldId := left + [c] + right))
         == TargetKindName(target.kind) + ":" + left + [c] + (right + back)
  {
    back := Rest(target.(worldId := ""));
    assert back == Rest(target.(worldId := left + [c] + right));
    hide Rest, DescribeTarget, TargetKindName;
    DescribedRest(target.(worldId := left + [c] + right));
    InnerByte(TargetKindName(target.kind) + ":", left, c, right, back);
  }

  lemma InnerByte(front: string, left: string, c: char, right: string, back: string)
    ensures front + (left + [c] + right) + back == front + left + [c] + (right + back)
  {
  }

  /** A property with the largest key is hashed after everything else: its key, then the
      digits of its value's hash. */
  lemma LargestKeyIsLast(ref: CollectionRef, present: bool, properties: Properties, key: string, value: Value)
    requires forall k :: k in properties ==> Ordering.LexLess(k, key)
    ensures RevisionOf(ref, present, properties[key := value])
         == MixAll(RevisionOf(ref, present, properties), BytesOf(key) + WordBytes(HashValue(value)))
  {
    hide HashValue, EntriesStream, MixAll, WordBytes, BytesOf, HeaderStream, Ordering.LexLess, Ordering.SortedKeys;
    var tail := BytesOf(key) + WordBytes(HashValue(value));
    StreamExtended(ref, present, properties, key, value);
    hide Stream;
    MixConcat(OFFSET, Stream(ref, present, properties), tail);
  }

  lemma StreamExtended(ref: CollectionRef, present: bool, properties: Properties, key: string, value: Value)
    requires forall k :: k in properties ==> Ordering.LexLess(k, key)
    ensures Stream(ref, present, properties[key := value])
         == Stream(ref, present, properties) + (BytesOf(key) + WordBytes(HashValue(value)))
  {
    hide HashValue, EntriesStream, WordBytes, BytesOf, HeaderStream, Ordering.LexLess, Ordering.SortedKeys;
    MoreEntries(properties, key, value);
    Regrouped3(HeaderStream(ref, present), EntriesStream(properties, Ordering.SortedKeys(properties.Keys)),
               BytesOf(key) + WordBytes(HashValue(value)));
  }

  lemma Regrouped3(a: seq<Byte>, b: seq<Byte>, c: seq<Byte>)
    ensures a + (b + c) == a + b + c
  {
  }

  lemma MoreEntries(properties: Properties, key: string, value: Value)
    requires forall k :: k in properties ==> Ordering.LexLess(k, key)
    ensures EntriesStream(properties[key := value], Ordering.SortedKeys(properties[key := value].Keys))
         == EntriesStream(properties, Ordering.SortedKeys(properties.Keys))
            + (BytesOf(key) + WordBytes(HashValue(value)))
  {
    var more, keys := properties[key := value], Ordering.SortedKeys(properties.Keys);
    NotBelowItself(properties.Keys, key);
    hide HashValue, WordBytes, BytesOf, Ordering.LexLess;
    assert more.Keys == properties.Keys + {key};
    KeyAppended(properties.Keys, key);
    SameEntries(properties, more, keys);
    assert (keys + [key])[..|keys|] == keys;
    hide EntriesStream;
    EntriesOneMore(more, keys, key);
  }

  lemma EntriesOneMore(properties: Properties, keys: seq<string>, key: string)
    requires key in properties && forall k :: k in keys ==> k in properties
    ensures EntriesStream(properties, keys + [key])
         == EntriesStream(properties, keys) + (BytesOf(key) + WordBytes(HashValue(properties[key])))
  {
    hide HashValue, WordBytes, BytesOf;
    assert (keys + [key])[..|keys|] == keys;
  }

  lemma NotBelowItself(keys: set<string>, key: string)
    requires forall k :: k in keys ==> Ordering.LexLess(k, key)
    ensures key !in keys
  {
    Ordering.LexOrders();
  }

  lemma KeyAppended(keys: set<string>, key: string)
    requires forall k :: k in keys ==> Ordering.LexLess(k, key)
    ensures Ordering.SortedKeys(keys + {key}) == Ordering.SortedKeys(keys) + [key]
  {
    Ordering.LexOrders();
    hide Ordering.LexLess, Ordering.Orders;
    var front, more := Ordering.SortedKeys(keys), Ordering.SortedKeys(keys + {key});
    Ordering.SortedUnique(Ordering.LexLess, more, front + [key]);
  }

  lemma {:induction false} SameEntries(p: Properties, q: Properties, keys: seq<string>)
    requires forall k :: k in keys ==> k in p && k in q && p[k] == q[k]
    ensures EntriesStream(p, keys) == EntriesStream(q, keys)
  {
    if keys != [] { SameEntries(p, q, keys[..|keys| - 1]); }
  }

  // Byte counts

  /** What a property is counted as: its key, eight bytes, and the bytes that are hashed
      of its value. */
  lemma CountedAsHashed(key: string, v: Value)
    ensures EstimateStoredBytes(key, v) == |key| + 8 + |PayloadBytes(v)|
  {
  }

  /** The sum of the sizes, not reduced. */
  function Total(properties: Properties, keys: seq<string>): nat
    requires forall k :: k in keys ==> k in properties
  {
    if keys == [] then 0
    else Total(properties, keys[..|keys| - 1])
         + EstimateStoredBytes(keys[|keys| - 1], properties[keys[|keys| - 1]])
  }

  /** The count is the sum of the sizes modulo 2^64. */
  lemma {:induction false} CountIsTotal(properties: Properties, keys: seq<string>)
    requires forall k :: k in keys ==> k in properties
    ensures ByteCount(properties, keys) == Total(properties, keys) % TWO_TO_THE_64
  {
    hide EstimateStoredBytes;
    if keys != [] {
      var n := |keys| - 1;
      CountIsTotal(properties, keys[..n]);
      SumModulo(Total(properties, keys[..n]), EstimateStoredBytes(keys[n], properties[keys[n]]));
    }
  }

  /** What a snapshot shows: the collection, whether it exists, and of what size and
      revision it is; collections in memory are loaded, persistent and writable. */
  lemma SnapshotShows(ref: CollectionRef, properties: Properties, present: bool)
    ensures var s := SnapshotOf(ref, properties, present);
            && s.ref == ref && s.properties == properties && s.present == present
            && s.loaded && s.persistent && s.writable
            && s.byteCount == Total(properties, Ordering.SortedKeys(properties.Keys)) % TWO_TO_THE_64
            && s.revision == RevisionOf(ref, present, properties)
  {
    hide RevisionOf, ByteCount, Total, Ordering.SortedKeys;
    CountIsTotal(properties, Ordering.SortedKeys(properties.Keys));
  }

  lemma SumModulo(a: nat, b: nat)
    ensures (a % TWO_TO_THE_64 + b) % TWO_TO_THE_64 == (a + b) % TWO_TO_THE_64
  {
    assert a + b == a % TWO_TO_THE_64 + b + TWO_TO_THE_64 * (a / TWO_TO_THE_64);
    ModShift(a % TWO_TO_THE_64 + b, a / TWO_TO_THE_64, TWO_TO_THE_64);
  }
}
