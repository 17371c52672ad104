/** The text that describes a target tells targets apart, field by field. */
module DescriptionLaws {
  import opened Types
  import opened Revision
  import opened Decimal

  // Texts with a part exchanged

  lemma Cancel(front: string, s: string, t: string, back: string)
    requires front + s + back == front + t + back
    ensures s == t
  {
    assert |s| == |t|;
    assert s == (front + s + back)[|front|..|front| + |s|];
    assert t == (front + t + back)[|front|..|front| + |s|];
  }

  lemma CutAtComma(a: string, b: string, c: string, d: string)
    requires ',' !in a && ',' !in c && a + "," + b == c + "," + d
    ensures a == c && b == d
  {
    CommaComesFirst(a, b, c, d);
    CommaComesFirst(c, d, a, b);
    Halves(a, ",", b);
    Halves(c, ",", d);
  }

  lemma CommaComesFirst(a: string, b: string, c: string, d: string)
    requires ',' !in c && a + "," + b == c + "," + d
    ensures |c| <= |a|
  {
    var s := a + "," + b;
    assert s[|a|] == ',';
    assert forall i :: 0 <= i < |c| ==> s[i] == c[i];
  }

  lemma CutAtLastAt(a: string, b: string, c: string, d: string)
    requires '@' !in b && '@' !in d && a + "@" + b == c + "@" + d
    ensures a == c && b == d
  {
    AtComesLast(a, b, c, d);
    AtComesLast(c, d, a, b);
    Halves(a, "@", b);
    Halves(c, "@", d);
  }

  lemma AtComesLast(a: string, b: string, c: string, d: string)
    requires '@' !in d && a + "@" + b == c + "@" + d
    ensures |a| <= |c|
  {
    var s := a + "@" + b;
    assert s[|a|] == '@';
    assert forall i :: |c| < i < |s| ==> s[i] == d[i - |c| - 1];
  }

  lemma Halves(a: string, mark: string, b: string)
    ensures (a + mark + b)[..|a|] == a && (a + mark + b)[|a| + |mark|..] == b
  {
  }

  // Numbers

  lemma IntHasNoMark(n: int)
    ensures ',' !in OfInt(n) && '@' !in OfInt(n) && OfInt(n) != ""
    ensures OfInt(n)[0] == '-' <==> n < 0
  {
    hide Digits;
  }

  /** Distinct integers are printed differently. */
  lemma IntsTold(m: int, n: int)
    requires OfInt(m) == OfInt(n)
    ensures m == n
  {
    IntHasNoMark(m);
    IntHasNoMark(n);
    hide Digits;
    if m < 0 {
      assert Digits(-m) == OfInt(m)[1..] == OfInt(n)[1..] == Digits(-n);
      ValueOfDigits(-m);
      ValueOfDigits(-n);
    } else {
      ValueOfDigits(m);
      ValueOfDigits(n);
    }
  }

  function Coordinates(x: int, y: int, z: int): string {
    OfInt(x) + "," + OfInt(y) + "," + OfInt(z)
  }

  lemma CoordinatesTold(x: int, y: int, z: int, x': int, y': int, z': int)
    requires Coordinates(x, y, z) == Coordinates(x', y', z')
    ensures x == x' && y == y' && z == z'
  {
    IntHasNoMark(x);
    IntHasNoMark(y);
    IntHasNoMark(x');
    IntHasNoMark(y');
    hide OfInt;
    assert Coordinates(x, y, z) == OfInt(x) + "," + (OfInt(y) + "," + OfInt(z));
    assert Coordinates(x', y', z') == OfInt(x') + "," + (OfInt(y') + "," + OfInt(z'));
    CutAtComma(OfInt(x), OfInt(y) + "," + OfInt(z), OfInt(x'), OfInt(y') + "," + OfInt(z'));
    CutAtComma(OfInt(y), OfInt(z), OfInt(y'), OfInt(z'));
    IntsTold(x, x');
    IntsTold(y, y');
    IntsTold(z, z');
  }

  lemma CoordinatesHaveNoAt(x: int, y: int, z: int)
    ensures '@' !in Coordinates(x, y, z)
  {
    IntHasNoMark(x);
    IntHasNoMark(y);
    IntHasNoMark(z);
    hide OfInt;
  }

  // The parts of a description

  function Tagged(tag: string, s: string): string {
    if s != "" then tag + s else ""
  }

  lemma TaggedTold(tag: string, s: string, t: string)
    requires tag != "" && Tagged(tag, s) == Tagged(tag, t)
    ensures s == t
  {
    if s != "" && t != "" {
      assert s == (tag + s)[|tag|..] && t == (tag + t)[|tag|..];
    }
  }

  function BlockPart(block: Option<BlockLocation>): string {
    match block
    case None => ""
    case Some(b) => ":" + b.dimension + "@" + Coordinates(b.x, b.y, b.z)
  }

  function SlotPart(slot: int): string {
    if slot >= 0 then ":slot=" + OfInt(slot) else ""
  }

  lemma BlockTold(b: BlockLocation, c: BlockLocation)
    requires BlockPart(Some(b)) == BlockPart(Some(c))
    ensures b == c
  {
    CoordinatesHaveNoAt(b.x, b.y, b.z);
    CoordinatesHaveNoAt(c.x, c.y, c.z);
    hide OfInt, Coordinates;
    var p, q := Coordinates(b.x, b.y, b.z), Coordinates(c.x, c.y, c.z);
    assert b.dimension + "@" + p == BlockPart(Some(b))[1..];
    assert c.dimension + "@" + q == BlockPart(Some(c))[1..];
    hide BlockPart;
    CutAtLastAt(b.dimension, p, c.dimension, q);
    CoordinatesTold(b.x, b.y, b.z, c.x, c.y, c.z);
  }

  function FrontPart(kind: TargetKind): string {
    TargetKindName(kind) + ":"
  }

  /** A description, cut into its parts. */
  lemma Parts(t: Target)
    ensures DescribeTarget(t)
         == FrontPart(t.kind) + t.worldId + Tagged(":xuid=", t.xuid) + Tagged(":entity=", t.entityId)
            + Tagged(":item=", t.itemEntityId) + BlockPart(t.block) + SlotPart(t.slot)
  {
    hide OfInt, TargetKindName;
    match t.block
    case None =>
    case Some(b) => BlockParts(b);
  }

  lemma BlockParts(b: BlockLocation)
    ensures ":" + b.dimension + "@" + OfInt(b.x) + "," + OfInt(b.y) + "," + OfInt(b.z) == BlockPart(Some(b))
  {
    hide OfInt;
  }

  /** Targets of one description that differ in at most one field are the same, except that
      all negative slots are described alike, and the section is not described. */
  lemma DescriptionTells(t: Target, u: Target)
    requires DescribeTarget(t) == DescribeTarget(u)
    ensures u == t.(worldId := u.worldId) ==> u == t
    ensures u == t.(xuid := u.xuid) ==> u == t
    ensures u == t.(entityId := u.entityId) ==> u == t
    ensures u == t.(itemEntityId := u.itemEntityId) ==> u == t
    ensures u == t.(block := u.block) ==> u == t
    ensures u == t.(slot := u.slot) ==> u == t || (t.slot < 0 && u.slot < 0)
    ensures u == t.(kind := u.kind) ==> u == t
  {
    Parts(t);
    Parts(u);
    hide DescribeTarget, Tagged, BlockPart, SlotPart, FrontPart;
    var parts, others := PartsOf(t), PartsOf(u);
    Joined(t);
    Joined(u);
    if u == t.(worldId := u.worldId) { PartTold(parts, others, 1); }
    if u == t.(xuid := u.xuid) {
      PartTold(parts, others, 2);
      TaggedTold(":xuid=", t.xuid, u.xuid);
    }
    if u == t.(entityId := u.entityId) {
      PartTold(parts, others, 3);
      TaggedTold(":entity=", t.entityId, u.entityId);
    }
    if u == t.(itemEntityId := u.itemEntityId) {
      PartTold(parts, others, 4);
      TaggedTold(":item=", t.itemEntityId, u.itemEntityId);
    }
    if u == t.(block := u.block) {
      PartTold(parts, others, 5);
      BlocksTold(t.block, u.block);
    }
    if u == t.(slot := u.slot) {
      PartTold(parts, others, 6);
      SlotsTold(t.slot, u.slot);
    }
    if u == t.(kind := u.kind) {
      PartTold(parts, others, 0);
      KindsTold(t.kind, u.kind);
    }
  }

  function PartsOf(t: Target): seq<string> {
    [FrontPart(t.kind), t.worldId, Tagged(":xuid=", t.xuid), Tagged(":entity=", t.entityId),
     Tagged(":item=", t.itemEntityId), BlockPart(t.block), SlotPart(t.slot)]
  }

  function Join(parts: seq<string>): string {
    if parts == [] then "" else Join(parts[..|parts| - 1]) + parts[|parts| - 1]
  }

  lemma Joined(t: Target)
    ensures DescribeTarget(t) == Join(PartsOf(t))
  {
    Parts(t);
    hide DescribeTarget, Tagged, BlockPart, SlotPart, FrontPart;
    var p := PartsOf(t);
    assert p[..0] == [] && p[..7] == p;
    JoinStep(p, 0); JoinStep(p, 1); JoinStep(p, 2); JoinStep(p, 3);
    JoinStep(p, 4); JoinStep(p, 5); JoinStep(p, 6);
    assert "" + p[0] == p[0];
  }

  lemma JoinStep(parts: seq<string>, n: nat)
    requires n < |parts|
    ensures Join(parts[..n + 1]) == Join(parts[..n]) + parts[n]
  {
    assert parts[..n + 1][..n] == parts[..n];
  }

  /** Lists of texts that differ at most in one place and are the same when joined are the
      same. */
  lemma {:induction false} PartTold(p: seq<string>, q: seq<string>, i: nat)
    requires |p| == |q| && i < |p| && Join(p) == Join(q)
    requires forall j :: 0 <= j < |p| && j != i ==> p[j] == q[j]
    ensures p[i] == q[i]
    decreases |p|
  {
    var n := |p| - 1;
    if i == n {
      assert p[..n] == q[..n];
      Cancel(Join(p[..n]), p[n], q[n], "");
    } else {
      LastCancelled(Join(p[..n]), Join(q[..n]), p[n]);
      PartTold(p[..n], q[..n], i);
    }
  }

  lemma LastCancelled(a: string, b: string, last: string)
    requires a + last == b + last
    ensures a == b
  {
    assert "" + a + last == a + last && "" + b + last == b + last;
    Cancel("", a, b, last);
  }

  lemma BlocksTold(b: Option<BlockLocation>, c: Option<BlockLocation>)
    requires BlockPart(b) == BlockPart(c)
    ensures b == c
  {
    if b.Some? && c.Some? { BlockTold(b.value, c.value); }
  }

  lemma SlotsTold(m: int, n: int)
    requires SlotPart(m) == SlotPart(n)
    ensures m == n || (m < 0 && n < 0)
  {
    hide OfInt;
    if m >= 0 && n >= 0 {
      assert OfInt(m) == SlotPart(m)[6..] && OfInt(n) == SlotPart(n)[6..];
      IntsTold(m, n);
    }
  }

  lemma KindsTold(k: TargetKind, l: TargetKind)
    requires FrontPart(k) == FrontPart(l)
    ensures k == l
  {
    var m, n := TargetKindName(k), TargetKindName(l);
    assert m == FrontPart(k)[..|FrontPart(k)| - 1] && n == FrontPart(l)[..|FrontPart(l)| - 1];
    hide FrontPart;
    KindNamesDiffer(k);
    KindNamesDiffer(l);
  }

  /** The length of a kind's name, with one of its letters, tells the kind. */
  lemma KindNamesDiffer(k: TargetKind)
    ensures var n := TargetKindName(k);
            match k
            case World => |n| == 5
            case OnlinePlayer => |n| == 13 && n[1] == 'n'
            case OfflinePlayer => |n| == 14
            case LoadedEntity => |n| == 13 && n[1] == 'o'
            case StoredEntity => |n| == 13 && n[1] == 't'
            case PlayerInventorySlot => |n| == 21
            case PlayerArmorSlot => |n| == 17
            case PlayerOffhandSlot => |n| == 19
            case PlayerEnderChestSlot => |n| == 23
            case BlockContainerSlot => |n| == 20
            case DroppedItem => |n| == 12 && n[0] == 'd'
            case BlockEntity => |n| == 12 && n[0] == 'b'
  {
  }
}
