/** The note store on disk (src/notes.rs, module `disk`).

    Here the tree is the parts the format writes down: its bridges, saved marks
    and checkpoints. What the cryptographic libraries refuse to construct is given
    by `Checks`. Addresses inside the tree are numbered level first, then index,
    the order their sets are kept in. */
module Disk {
  import opened Prelude
  import opened Arith
  import opened Ordered
  import opened Wire
  import opened Notes

  const MAGIC: seq<byte> := [0x5A, 0x45, 0x43, 0x4E, 0x4F, 0x54, 0x45, 0x31]  // "ZECNOTE1"

  // ------------------------------------------------------------ readers put together

  type Parser<!T> = seq<byte> -> Parsed<T>

  /** Whatever follows, these bytes are read as this value and no further. */
  ghost predicate ReadsAs<T(!new)>(p: Parser<T>, bytes: seq<byte>, v: T) {
    forall rest :: p(bytes + rest) == Some((v, rest))
  }

  function Then<A, B>(p: Parser<A>, q: Parser<B>): Parser<(A, B)> {
    (b: seq<byte>) =>
      match p(b)
      case None => None
      case Some((x, mid)) =>
        match q(mid)
        case None => None
        case Some((y, rest)) => Some(((x, y), rest))
  }

  /** A value built from what was read, or refused. */
  function Built<A, B>(p: Parser<A>, build: A -> Option<B>): Parser<B> {
    (b: seq<byte>) =>
      match p(b)
      case None => None
      case Some((x, rest)) => if build(x).Some? then Some((build(x).value, rest)) else None
  }

  /** A 32-bit count and that many elements. */
  function Counted<T>(p: Parser<T>): Parser<seq<T>> {
    (b: seq<byte>) =>
      match ParseU32(b)
      case None => None
      case Some((n, rest)) => Many(p, rest, n)
  }

  function CountedBytes<T>(enc: T -> seq<byte>, xs: seq<T>): seq<byte> {
    Le(|xs|, 4) + Cat(enc, xs)
  }

  lemma ThenReads<A(!new), B(!new)>(p: Parser<A>, q: Parser<B>, a: seq<byte>, b: seq<byte>, x: A, y: B)
    requires ReadsAs(p, a, x) && ReadsAs(q, b, y)
    ensures ReadsAs(Then(p, q), a + b, (x, y))
  {
    forall rest ensures Then(p, q)(a + b + rest) == Some(((x, y), rest)) {
      Assoc(a, b, rest);
      assert p(a + (b + rest)) == Some((x, b + rest)) && q(b + rest) == Some((y, rest));
    }
  }

  lemma BuiltReads<A(!new), B(!new)>(p: Parser<A>, build: A -> Option<B>, a: seq<byte>, x: A, y: B)
    requires ReadsAs(p, a, x) && build(x) == Some(y)
    ensures ReadsAs(Built(p, build), a, y)
  {
    forall rest ensures Built(p, build)(a + rest) == Some((y, rest)) {
      assert p(a + rest) == Some((x, rest));
    }
  }

  lemma CountedReads<T(!new)>(p: Parser<T>, enc: T -> seq<byte>, xs: seq<T>)
    requires |xs| < 0x1_0000_0000 && forall x :: x in xs ==> ReadsAs(p, enc(x), x)
    ensures ReadsAs(Counted(p), CountedBytes(enc, xs), xs)
  {
    forall rest ensures Counted(p)(CountedBytes(enc, xs) + rest) == Some((xs, rest)) {
      forall x, r | x in xs ensures p(enc(x) + r) == Some((x, r)) {
        assert ReadsAs(p, enc(x), x);
      }
      ManyForward(p, enc, xs, rest);
      U32Forward(|xs|, Cat(enc, xs) + rest);
      Assoc(Le(|xs|, 4), Cat(enc, xs), rest);
    }
  }

  // ------------------------------------------------------------ sets and maps

  function SetOf(xs: seq<nat>): Option<set<nat>> {
    Some(set x: nat | x in xs)
  }

  function SetParser(p: Parser<nat>): Parser<set<nat>> {
    Built(Counted(p), SetOf)
  }

  function SetBytes(enc: nat -> seq<byte>, s: set<nat>): seq<byte> {
    CountedBytes(enc, Ascending(s))
  }

  lemma SetOfAscending(s: set<nat>)
    ensures SetOf(Ascending(s)) == Some(s)
  {
    assert (set x: nat | x in Ascending(s)) == s;
  }

  lemma SetReads(p: Parser<nat>, enc: nat -> seq<byte>, s: set<nat>)
    requires |s| < 0x1_0000_0000 && forall x :: x in s ==> ReadsAs(p, enc(x), x)
    ensures ReadsAs(SetParser(p), SetBytes(enc, s), s)
  {
    CountedReads(p, enc, Ascending(s));
    SetOfAscending(s);
    BuiltReads(Counted(p), SetOf, SetBytes(enc, s), Ascending(s), s);
  }

  /** Entries inserted one after another: a later one replaces an earlier. */
  function MapOf<V>(entries: seq<(nat, V)>): map<nat, V> {
    if entries == [] then map[] else
      var e := entries[|entries| - 1];
      MapOf(entries[..|entries| - 1])[e.0 := e.1]
  }

  function BuildMap<V>(entries: seq<(nat, V)>): Option<map<nat, V>> {
    Some(MapOf(entries))
  }

  /** `iter()` of a `BTreeMap`. */
  function Entries<V>(keys: seq<nat>, m: map<nat, V>): (es: seq<(nat, V)>)
    requires forall k :: k in keys ==> k in m
    ensures |es| == |keys|
    ensures forall e :: e in es ==> e.0 in m && m[e.0] == e.1
  {
    if keys == [] then [] else
      var k := keys[|keys| - 1];
      Entries(keys[..|keys| - 1], m) + [(k, m[k])]
  }

  lemma {:induction false} EntriesMakeTheMap<V>(keys: seq<nat>, m: map<nat, V>)
    requires forall k :: k in keys ==> k in m
    ensures MapOf(Entries(keys, m)) == map k | k in m && k in keys :: m[k]
  {
    if keys != [] {
      var n := |keys| - 1;
      EntriesMakeTheMap(keys[..n], m);
      var es := Entries(keys, m);
      assert es[..n] == Entries(keys[..n], m) && es[n] == (keys[n], m[keys[n]]);
    }
  }

  function MapParser<V>(p: Parser<(nat, V)>): Parser<map<nat, V>> {
    Built(Counted(p), BuildMap)
  }

  function MapBytes<V>(enc: ((nat, V)) -> seq<byte>, m: map<nat, V>): seq<byte> {
    CountedBytes(enc, Entries(Ascending(m.Keys), m))
  }

  lemma EntriesOf<V>(keys: seq<nat>, m: map<nat, V>)
    requires forall k :: k in keys <==> k in m
    ensures BuildMap(Entries(keys, m)) == Some(m)
  {
    EntriesMakeTheMap(keys, m);
    assert (map k | k in m && k in keys :: m[k]) == m;
  }

  lemma EntryCount<V>(m: map<nat, V>)
    ensures |Entries(Ascending(m.Keys), m)| == |m|
  {
    assert |m| == |m.Keys|;
  }

  lemma MapReads<V(!new)>(p: Parser<(nat, V)>, enc: ((nat, V)) -> seq<byte>, m: map<nat, V>)
    requires |m| < 0x1_0000_0000 && forall k :: k in m ==> ReadsAs(p, enc((k, m[k])), (k, m[k]))
    ensures ReadsAs(MapParser(p), MapBytes(enc, m), m)
  {
    var es := Entries(Ascending(m.Keys), m);
    EntriesOf(Ascending(m.Keys), m);
    EntryCount(m);
    forall e | e in es ensures ReadsAs(p, enc(e), e) {
      assert e == (e.0, m[e.0]);
    }
    CountedReads(p, enc, es);
    BuiltReads(Counted(p), BuildMap, MapBytes(enc, m), es, m);
  }

  // ------------------------------------------------------------ fields

  function ReadU8(b: seq<byte>): Parsed<nat> {
    match Take(b, 1)
    case None => None
    case Some((x, rest)) => Some((x[0], rest))
  }

  lemma U8Reads(v: nat)
    requires v < 256
    ensures ReadsAs(ReadU8, [v], v)
  {
    forall rest: seq<byte> ensures ReadU8([v] + rest) == Some((v, rest)) {
      var b: seq<byte> := [v];
      TakeForward(b, rest);
    }
  }

  function ReadU32(b: seq<byte>): Parsed<nat> { ParseU32(b) }

  function ReadU64(b: seq<byte>): Parsed<nat> { ParseU64(b) }

  function U32Bytes(n: nat): seq<byte> { Le(n, 4) }

  function U64Bytes(n: nat): seq<byte> { Le(n, 8) }

  lemma U32Reads(n: nat)
    requires n < 0x1_0000_0000
    ensures ReadsAs(ReadU32, U32Bytes(n), n)
  {
    forall rest ensures ReadU32(U32Bytes(n) + rest) == Some((n, rest)) {
      U32Forward(n, rest);
    }
  }

  lemma U64Reads(n: nat)
    requires n <= U64_MAX
    ensures ReadsAs(ReadU64, U64Bytes(n), n)
  {
    forall rest ensures ReadU64(U64Bytes(n) + rest) == Some((n, rest)) {
      U64Forward(n, rest);
    }
  }

  /** Raw bytes, as the number they spell. */
  function ReadRaw(w: nat): Parser<nat> {
    (b: seq<byte>) =>
      match Take(b, w)
      case None => None
      case Some((x, rest)) => Some((FromBe(x), rest))
  }

  lemma RawReads(n: nat, w: nat)
    requires n < Width(w)
    ensures ReadsAs(ReadRaw(w), Be(n, w), n)
  {
    FromBeOfBe(n, w);
    forall rest ensures ReadRaw(w)(Be(n, w) + rest) == Some((n, rest)) {
      TakeForward(Be(n, w), rest);
    }
  }

  /** A flag and a value; the value is written as zero when there is none. */
  function OptBytes(v: Option<nat>): seq<byte> {
    [if v.Some? then 1 else 0] + U64Bytes(if v.Some? then v.value else 0)
  }

  function ReadOpt(b: seq<byte>): Parsed<Option<nat>> {
    match ReadU8(b)
    case None => None
    case Some((flag, mid)) =>
      match ReadU64(mid)
      case None => None
      case Some((n, rest)) => Some((if flag != 0 then Some(n) else None, rest))
  }

  predicate OptFits(v: Option<nat>) {
    v.Some? ==> v.value <= U64_MAX
  }

  lemma OptReads(v: Option<nat>)
    requires OptFits(v)
    ensures ReadsAs(ReadOpt, OptBytes(v), v)
  {
    var flag, n := if v.Some? then 1 else 0, if v.Some? then v.value else 0;
    U8Reads(flag);
    U64Reads(n);
    forall rest ensures ReadOpt(OptBytes(v) + rest) == Some((v, rest)) {
      Assoc([flag], U64Bytes(n), rest);
      assert ReadU8([flag] + (U64Bytes(n) + rest)) == Some((flag, U64Bytes(n) + rest));
      assert ReadU64(U64Bytes(n) + rest) == Some((n, rest));
    }
  }

  lemma Next<T(!new)>(p: Parser<T>, bytes: seq<byte>, v: T, rest: seq<byte>)
    requires ReadsAs(p, bytes, v)
    ensures p(bytes + rest) == Some((v, rest))
  {
  }

  lemma Alone<T(!new)>(p: Parser<T>, bytes: seq<byte>, v: T)
    requires ReadsAs(p, bytes, v)
    ensures p(bytes) == Some((v, []))
  {
    Next(p, bytes, v, []);
    assert bytes + [] == bytes;
  }

  // ------------------------------------------------------------ the tree's parts

  datatype Frontier = Frontier(position: nat, leaf: nat, ommers: seq<nat>)

  datatype Bridge = Bridge(prior: Option<nat>, tracking: set<nat>, ommers: map<nat, nat>, frontier: Frontier)

  datatype Mark = Mark(id: nat, bridges: nat, marked: set<nat>, forgotten: set<nat>)

  datatype Parts = Parts(
    most: nat, prior: seq<Bridge>, current: Option<Bridge>, saved: map<nat, nat>, checkpoints: seq<Mark>)

  /** What the libraries' constructors accept. */
  datatype Checks = Checks(
    hashOk: nat -> bool,
    frontierOk: Frontier -> bool,
    treeOk: Parts -> bool,
    recipientOk: nat -> bool,
    rhoOk: Hash -> bool,
    seedOk: (Hash, Hash) -> bool,
    noteOk: Note -> bool)

  const LEVEL: nat := 0x1_0000_0000_0000_0000

  function AddressBytes(a: nat): seq<byte> {
    QuotientNonNegative(a, LEVEL);
    [(a / LEVEL) % 256] + U64Bytes(a % LEVEL)
  }

  function ReadAddress(b: seq<byte>): Parsed<nat> {
    match ReadU8(b)
    case None => None
    case Some((level, mid)) =>
      match ReadU64(mid)
      case None => None
      case Some((index, rest)) => Some((level * LEVEL + index, rest))
  }

  lemma AddressReads(a: nat)
    requires a < 256 * LEVEL
    ensures ReadsAs(ReadAddress, AddressBytes(a), a)
  {
    DivModEq(a, LEVEL);
    var level: nat, index: nat := a / LEVEL, a % LEVEL;
    U8Reads(level);
    U64Reads(index);
    forall rest ensures ReadAddress(AddressBytes(a) + rest) == Some((a, rest)) {
      Assoc([level], U64Bytes(index), rest);
      Next(ReadU8, [level], level, U64Bytes(index) + rest);
      Next(ReadU64, U64Bytes(index), index, rest);
    }
  }

  function HashBytes(h: nat): seq<byte> { Be(h, 32) }

  function ReadHash(c: Checks): Parser<nat> {
    (b: seq<byte>) =>
      match Take(b, 32)
      case None => None
      case Some((x, rest)) => if c.hashOk(FromBe(x)) then Some((FromBe(x), rest)) else None
  }

  predicate HashFits(h: nat, c: Checks) {
    h < Width(32) && c.hashOk(h)
  }

  lemma HashReads(h: nat, c: Checks)
    requires HashFits(h, c)
    ensures ReadsAs(ReadHash(c), HashBytes(h), h)
  {
    FromBeOfBe(h, 32);
    forall rest ensures ReadHash(c)(HashBytes(h) + rest) == Some((h, rest)) {
      TakeForward(Be(h, 32), rest);
    }
  }

  function FrontierBytes(f: Frontier): seq<byte> {
    U64Bytes(f.position) + (HashBytes(f.leaf) + CountedBytes(HashBytes, f.ommers))
  }

  function ReadFrontier(c: Checks): Parser<Frontier> {
    (b: seq<byte>) =>
      match Then(ReadU64, Then(ReadHash(c), Counted(ReadHash(c))))(b)
      case None => None
      case Some(((position, (leaf, ommers)), rest)) =>
        if c.frontierOk(Frontier(position, leaf, ommers)) then Some((Frontier(position, leaf, ommers), rest)) else None
  }

  predicate FrontierFits(f: Frontier, c: Checks) {
    && f.position <= U64_MAX && HashFits(f.leaf, c) && |f.ommers| < 0x1_0000_0000
    && (forall h :: h in f.ommers ==> HashFits(h, c)) && c.frontierOk(f)
  }

  lemma FrontierReads(f: Frontier, c: Checks)
    requires FrontierFits(f, c)
    ensures ReadsAs(ReadFrontier(c), FrontierBytes(f), f)
  {
    U64Reads(f.position);
    HashReads(f.leaf, c);
    forall h | h in f.ommers ensures ReadsAs(ReadHash(c), HashBytes(h), h) {
      HashReads(h, c);
    }
    CountedReads(ReadHash(c), HashBytes, f.ommers);
    ThenReads(ReadHash(c), Counted(ReadHash(c)), HashBytes(f.leaf), CountedBytes(HashBytes, f.ommers),
              f.leaf, f.ommers);
    ThenReads(ReadU64, Then(ReadHash(c), Counted(ReadHash(c))), U64Bytes(f.position),
              HashBytes(f.leaf) + CountedBytes(HashBytes, f.ommers), f.position, (f.leaf, f.ommers));
    forall rest ensures ReadFrontier(c)(FrontierBytes(f) + rest) == Some((f, rest)) {
      Next(Then(ReadU64, Then(ReadHash(c), Counted(ReadHash(c)))), FrontierBytes(f),
           (f.position, (f.leaf, f.ommers)), rest);
    }
  }

  function OmmerBytes(e: (nat, nat)): seq<byte> {
    AddressBytes(e.0) + HashBytes(e.1)
  }

  function BridgeBytes(x: Bridge): seq<byte> {
    OptBytes(x.prior)
      + (SetBytes(AddressBytes, x.tracking) + (MapBytes(OmmerBytes, x.ommers) + FrontierBytes(x.frontier)))
  }

  function ReadOmmers(c: Checks): Parser<map<nat, nat>> {
    MapParser(Then(ReadAddress, ReadHash(c)))
  }

  function ReadBridgeFields(c: Checks): Parser<(Option<nat>, (set<nat>, (map<nat, nat>, Frontier)))> {
    Then(ReadOpt, Then(SetParser(ReadAddress), Then(ReadOmmers(c), ReadFrontier(c))))
  }

  function ReadBridge(c: Checks): Parser<Bridge> {
    (b: seq<byte>) =>
      match ReadBridgeFields(c)(b)
      case None => None
      case Some(((prior, (tracking, (ommers, frontier))), rest)) =>
        Some((Bridge(prior, tracking, ommers, frontier), rest))
  }

  predicate AddressFits(a: nat) {
    a < 256 * LEVEL
  }

  predicate BridgeFits(x: Bridge, c: Checks) {
    && OptFits(x.prior) && FrontierFits(x.frontier, c)
    && |x.tracking| < 0x1_0000_0000 && (forall a :: a in x.tracking ==> AddressFits(a))
    && |x.ommers| < 0x1_0000_0000 && (forall a :: a in x.ommers ==> AddressFits(a) && HashFits(x.ommers[a], c))
  }

  lemma OmmersRead(m: map<nat, nat>, c: Checks)
    requires |m| < 0x1_0000_0000 && forall a :: a in m ==> AddressFits(a) && HashFits(m[a], c)
    ensures ReadsAs(ReadOmmers(c), MapBytes(OmmerBytes, m), m)
  {
    forall a | a in m ensures ReadsAs(Then(ReadAddress, ReadHash(c)), OmmerBytes((a, m[a])), (a, m[a])) {
      AddressReads(a);
      HashReads(m[a], c);
      ThenReads(ReadAddress, ReadHash(c), AddressBytes(a), HashBytes(m[a]), a, m[a]);
    }
    MapReads(Then(ReadAddress, ReadHash(c)), OmmerBytes, m);
  }

  lemma TrackingReads(s: set<nat>)
    requires |s| < 0x1_0000_0000 && forall a :: a in s ==> AddressFits(a)
    ensures ReadsAs(SetParser(ReadAddress), SetBytes(AddressBytes, s), s)
  {
    forall a | a in s ensures ReadsAs(ReadAddress, AddressBytes(a), a) {
      AddressReads(a);
    }
    SetReads(ReadAddress, AddressBytes, s);
  }

  lemma BridgeFieldsRead(x: Bridge, c: Checks)
    requires BridgeFits(x, c)
    ensures ReadsAs(ReadBridgeFields(c), BridgeBytes(x), (x.prior, (x.tracking, (x.ommers, x.frontier))))
  {
    OptReads(x.prior);
    TrackingReads(x.tracking);
    OmmersRead(x.ommers, c);
    FrontierReads(x.frontier, c);
    var b1, b2, b3 := SetBytes(AddressBytes, x.tracking), MapBytes(OmmerBytes, x.ommers), FrontierBytes(x.frontier);
    ThenReads(ReadOmmers(c), ReadFrontier(c), b2, b3, x.ommers, x.frontier);
    ThenReads(SetParser(ReadAddress), Then(ReadOmmers(c), ReadFrontier(c)), b1, b2 + b3,
              x.tracking, (x.ommers, x.frontier));
    ThenReads(ReadOpt, Then(SetParser(ReadAddress), Then(ReadOmmers(c), ReadFrontier(c))),
              OptBytes(x.prior), b1 + (b2 + b3),
              x.prior, (x.tracking, (x.ommers, x.frontier)));
  }

  lemma BridgeReads(x: Bridge, c: Checks)
    requires BridgeFits(x, c)
    ensures ReadsAs(ReadBridge(c), BridgeBytes(x), x)
  {
    BridgeFieldsRead(x, c);
    forall rest ensures ReadBridge(c)(BridgeBytes(x) + rest) == Some((x, rest)) {
      Next(ReadBridgeFields(c), BridgeBytes(x), (x.prior, (x.tracking, (x.ommers, x.frontier))), rest);
    }
  }

  function MarkBytes(m: Mark): seq<byte> {
    U32Bytes(m.id) + (U64Bytes(m.bridges) + (SetBytes(U64Bytes, m.marked) + SetBytes(U64Bytes, m.forgotten)))
  }

  function ReadMarkFields(): Parser<(nat, (nat, (set<nat>, set<nat>)))> {
    Then(ReadU32, Then(ReadU64, Then(SetParser(ReadU64), SetParser(ReadU64))))
  }

  function ReadMark(): Parser<Mark> {
    (b: seq<byte>) =>
      match ReadMarkFields()(b)
      case None => None
      case Some(((id, (bridges, (marked, forgotten))), rest)) => Some((Mark(id, bridges, marked, forgotten), rest))
  }

  predicate PositionsFit(s: set<nat>) {
    |s| < 0x1_0000_0000 && forall p :: p in s ==> p <= U64_MAX
  }

  predicate MarkFits(m: Mark) {
    m.id < 0x1_0000_0000 && m.bridges <= U64_MAX && PositionsFit(m.marked) && PositionsFit(m.forgotten)
  }

  lemma PositionsRead(s: set<nat>)
    requires PositionsFit(s)
    ensures ReadsAs(SetParser(ReadU64), SetBytes(U64Bytes, s), s)
  {
    forall p | p in s ensures ReadsAs(ReadU64, U64Bytes(p), p) {
      U64Reads(p);
    }
    SetReads(ReadU64, U64Bytes, s);
  }

  lemma MarkFieldsRead(m: Mark)
    requires MarkFits(m)
    ensures ReadsAs(ReadMarkFields(), MarkBytes(m), (m.id, (m.bridges, (m.marked, m.forgotten))))
  {
    U32Reads(m.id);
    U64Reads(m.bridges);
    PositionsRead(m.marked);
    PositionsRead(m.forgotten);
    var b2, b3 := SetBytes(U64Bytes, m.marked), SetBytes(U64Bytes, m.forgotten);
    ThenReads(SetParser(ReadU64), SetParser(ReadU64), b2, b3, m.marked, m.forgotten);
    ThenReads(ReadU64, Then(SetParser(ReadU64), SetParser(ReadU64)), U64Bytes(m.bridges), b2 + b3,
              m.bridges, (m.marked, m.forgotten));
    ThenReads(ReadU32, Then(ReadU64, Then(SetParser(ReadU64), SetParser(ReadU64))), U32Bytes(m.id),
              U64Bytes(m.bridges) + (b2 + b3), m.id, (m.bridges, (m.marked, m.forgotten)));
  }

  lemma MarkReads(m: Mark)
    requires MarkFits(m)
    ensures ReadsAs(ReadMark(), MarkBytes(m), m)
  {
    MarkFieldsRead(m);
    forall rest ensures ReadMark()(MarkBytes(m) + rest) == Some((m, rest)) {
      Next(ReadMarkFields(), MarkBytes(m), (m.id, (m.bridges, (m.marked, m.forgotten))), rest);
    }
  }

  /** The bridge under construction, behind a flag. */
  function CurrentBytes(x: Option<Bridge>): seq<byte> {
    if x.Some? then [1] + BridgeBytes(x.value) else [0]
  }

  function ReadCurrent(c: Checks): Parser<Option<Bridge>> {
    (b: seq<byte>) =>
      match ReadU8(b)
      case None => None
      case Some((flag, mid)) =>
        if flag == 0 then Some((None, mid)) else
          match ReadBridge(c)(mid)
          case None => None
          case Some((x, rest)) => Some((Some(x), rest))
  }

  lemma CurrentReads(x: Option<Bridge>, c: Checks)
    requires x.Some? ==> BridgeFits(x.value, c)
    ensures ReadsAs(ReadCurrent(c), CurrentBytes(x), x)
  {
    U8Reads(0);
    U8Reads(1);
    forall rest ensures ReadCurrent(c)(CurrentBytes(x) + rest) == Some((x, rest)) {
      if x.Some? {
        BridgeReads(x.value, c);
        Assoc([1], BridgeBytes(x.value), rest);
        Next(ReadU8, [1], 1, BridgeBytes(x.value) + rest);
        Next(ReadBridge(c), BridgeBytes(x.value), x.value, rest);
      } else {
        Next(ReadU8, [0], 0, rest);
      }
    }
  }

  function SavedBytes(e: (nat, nat)): seq<byte> {
    U64Bytes(e.0) + U64Bytes(e.1)
  }

  function PartsBytes(t: Parts): seq<byte> {
    U32Bytes(t.most) + (CountedBytes(BridgeBytes, t.prior) + (CurrentBytes(t.current) +
      (MapBytes(SavedBytes, t.saved) + CountedBytes(MarkBytes, t.checkpoints))))
  }

  type PartsFields = (nat, (seq<Bridge>, (Option<Bridge>, (map<nat, nat>, seq<Mark>))))

  function ReadPartsFields(c: Checks): Parser<PartsFields> {
    Then(ReadU32, Then(Counted(ReadBridge(c)), Then(ReadCurrent(c),
      Then(MapParser(Then(ReadU64, ReadU64)), Counted(ReadMark())))))
  }

  function ReadParts(c: Checks): Parser<Parts> {
    (b: seq<byte>) =>
      match ReadPartsFields(c)(b)
      case None => None
      case Some(((most, (prior, (current, (saved, checkpoints)))), rest)) =>
        var t := Parts(most, prior, current, saved, checkpoints);
        if c.treeOk(t) then Some((t, rest)) else None
  }

  predicate PartsFit(t: Parts, c: Checks) {
    && t.most < 0x1_0000_0000 && |t.prior| < 0x1_0000_0000
    && |t.checkpoints| < 0x1_0000_0000 && |t.saved| < 0x1_0000_0000
    && (forall x :: x in t.prior ==> BridgeFits(x, c)) && (t.current.Some? ==> BridgeFits(t.current.value, c))
    && (forall p :: p in t.saved ==> p <= U64_MAX && t.saved[p] <= U64_MAX)
    && (forall m :: m in t.checkpoints ==> MarkFits(m))
    && c.treeOk(t)
  }

  lemma SavedReads(m: map<nat, nat>)
    requires |m| < 0x1_0000_0000 && forall p :: p in m ==> p <= U64_MAX && m[p] <= U64_MAX
    ensures ReadsAs(MapParser(Then(ReadU64, ReadU64)), MapBytes(SavedBytes, m), m)
  {
    forall p | p in m ensures ReadsAs(Then(ReadU64, ReadU64), SavedBytes((p, m[p])), (p, m[p])) {
      U64Reads(p);
      U64Reads(m[p]);
      ThenReads(ReadU64, ReadU64, U64Bytes(p), U64Bytes(m[p]), p, m[p]);
    }
    MapReads(Then(ReadU64, ReadU64), SavedBytes, m);
  }

  lemma ListsRead(t: Parts, c: Checks)
    requires PartsFit(t, c)
    ensures ReadsAs(Counted(ReadBridge(c)), CountedBytes(BridgeBytes, t.prior), t.prior)
    ensures ReadsAs(Counted(ReadMark()), CountedBytes(MarkBytes, t.checkpoints), t.checkpoints)
  {
    forall x | x in t.prior ensures ReadsAs(ReadBridge(c), BridgeBytes(x), x) {
      BridgeReads(x, c);
    }
    CountedReads(ReadBridge(c), BridgeBytes, t.prior);
    forall m | m in t.checkpoints ensures ReadsAs(ReadMark(), MarkBytes(m), m) {
      MarkReads(m);
    }
    CountedReads(ReadMark(), MarkBytes, t.checkpoints);
  }

  lemma PartsFieldsRead(t: Parts, c: Checks)
    requires PartsFit(t, c)
    ensures ReadsAs(ReadPartsFields(c), PartsBytes(t), (t.most, (t.prior, (t.current, (t.saved, t.checkpoints)))))
  {
    U32Reads(t.most);
    ListsRead(t, c);
    CurrentReads(t.current, c);
    SavedReads(t.saved);
    var saved, marks := MapParser(Then(ReadU64, ReadU64)), Counted(ReadMark());
    var b1, b2 := CountedBytes(BridgeBytes, t.prior), CurrentBytes(t.current);
    var b3, b4 := MapBytes(SavedBytes, t.saved), CountedBytes(MarkBytes, t.checkpoints);
    ThenReads(saved, marks, b3, b4, t.saved, t.checkpoints);
    ThenReads(ReadCurrent(c), Then(saved, marks), b2, b3 + b4, t.current, (t.saved, t.checkpoints));
    ThenReads(Counted(ReadBridge(c)), Then(ReadCurrent(c), Then(saved, marks)), b1, b2 + (b3 + b4),
              t.prior, (t.current, (t.saved, t.checkpoints)));
    ThenReads(ReadU32, Then(Counted(ReadBridge(c)), Then(ReadCurrent(c), Then(saved, marks))), U32Bytes(t.most),
              b1 + (b2 + (b3 + b4)), t.most, (t.prior, (t.current, (t.saved, t.checkpoints))));
  }

  lemma PartsRead(t: Parts, c: Checks)
    requires PartsFit(t, c)
    ensures ReadsAs(ReadParts(c), PartsBytes(t), t)
  {
    PartsFieldsRead(t, c);
    forall rest ensures ReadParts(c)(PartsBytes(t) + rest) == Some((t, rest)) {
      Next(ReadPartsFields(c), PartsBytes(t), (t.most, (t.prior, (t.current, (t.saved, t.checkpoints)))), rest);
    }
  }

  // ------------------------------------------------------------ notes

  function ReadBytes32(b: seq<byte>): Parsed<Hash> {
    match Take(b, 32)
    case None => None
    case Some((x, rest)) => Some((HashOf(x), rest))
  }

  lemma Bytes32Reads(h: Hash)
    ensures ReadsAs(ReadBytes32, Be(h, 32), h)
  {
    HashOfBe(h);
    forall rest: seq<byte> ensures ReadBytes32(Be(h, 32) + rest) == Some((h, rest)) {
      TakeForward(Be(h, 32), rest);
    }
  }

  /** Where a note stands, and the note. */
  function PlaceBytes(h: HeldNote): seq<byte> {
    U64Bytes(h.position) + (U64Bytes(h.height) + Be(h.txid, 32))
  }

  function VersionByte(v: NoteVersion): nat {
    if v == V2 then 2 else 3
  }

  function NoteBytes(n: Note): seq<byte> {
    Be(n.recipient, 43) + (U64Bytes(n.value) + (Be(n.rho, 32) + (Be(n.rseed, 32) + [VersionByte(n.version)])))
  }

  function HeldBytes(h: HeldNote): seq<byte> {
    PlaceBytes(h) + NoteBytes(h.note)
  }

  function ReadPlace(): Parser<(nat, (nat, Hash))> {
    Then(ReadU64, Then(ReadU64, ReadBytes32))
  }

  function ReadNoteFields(): Parser<NoteFields> {
    Then(ReadRaw(43), Then(ParseU64, Then(ReadBytes32, Then(ReadBytes32, ReadU8))))
  }

  function VersionOf(v: nat): Option<NoteVersion> {
    if v == 2 then Some(V2) else if v == 3 then Some(V3) else None
  }

  type NoteFields = (nat, (u64, (Hash, (Hash, nat))))

  function BuildNote(f: NoteFields, c: Checks): Option<Note> {
    var (recipient, (value, (rho, (rseed, version)))) := f;
    if VersionOf(version).None? then None else
      var n := Note(recipient, value, rho, rseed, VersionOf(version).value);
      if NoteAccepted(n, c) then Some(n) else None
  }

  function FieldsOf(n: Note): NoteFields {
    (n.recipient, (n.value, (n.rho, (n.rseed, VersionByte(n.version)))))
  }

  function ReadNote(c: Checks): Parser<Note> {
    (b: seq<byte>) =>
      match ReadNoteFields()(b)
      case None => None
      case Some((f, rest)) => if BuildNote(f, c).Some? then Some((BuildNote(f, c).value, rest)) else None
  }

  predicate NoteAccepted(n: Note, c: Checks) {
    c.recipientOk(n.recipient) && c.rhoOk(n.rho) && c.seedOk(n.rseed, n.rho) && c.noteOk(n)
  }

  /** `held()`: the entry it is filed under is the note's own position. */
  function ReadHeld(c: Checks): Parser<(nat, HeldNote)> {
    (b: seq<byte>) =>
      match Then(ReadPlace(), ReadNote(c))(b)
      case None => None
      case Some((((position, (height, txid)), n), rest)) =>
        Some(((position, HeldNote(n, position, height, txid)), rest))
  }

  predicate HeldFits(h: HeldNote, c: Checks) {
    h.position <= U64_MAX && h.height <= U64_MAX && h.note.recipient < Width(43) && NoteAccepted(h.note, c)
  }

  lemma NoteFieldsRead(n: Note)
    requires n.recipient < Width(43)
    ensures ReadsAs(ReadNoteFields(), NoteBytes(n), FieldsOf(n))
  {
    RawReads(n.recipient, 43);
    ValueReads(n.value);
    Bytes32Reads(n.rho);
    Bytes32Reads(n.rseed);
    U8Reads(VersionByte(n.version));
    var v: seq<byte> := [VersionByte(n.version)];
    ThenReads(ReadBytes32, ReadU8, Be(n.rseed, 32), v, n.rseed, VersionByte(n.version));
    ThenReads(ReadBytes32, Then(ReadBytes32, ReadU8), Be(n.rho, 32), Be(n.rseed, 32) + v,
              n.rho, (n.rseed, VersionByte(n.version)));
    ThenReads(ParseU64, Then(ReadBytes32, Then(ReadBytes32, ReadU8)),
              U64Bytes(n.value), Be(n.rho, 32) + (Be(n.rseed, 32) + v),
              n.value, (n.rho, (n.rseed, VersionByte(n.version))));
    ThenReads(ReadRaw(43), Then(ParseU64, Then(ReadBytes32, Then(ReadBytes32, ReadU8))), Be(n.recipient, 43),
              U64Bytes(n.value) + (Be(n.rho, 32) + (Be(n.rseed, 32) + v)),
              n.recipient, (n.value, (n.rho, (n.rseed, VersionByte(n.version)))));
  }

  lemma ValueReads(v: u64)
    ensures ReadsAs(ParseU64, U64Bytes(v), v)
  {
    forall rest: seq<byte> ensures ParseU64(U64Bytes(v) + rest) == Some((v, rest)) {
      U64Forward(v, rest);
    }
  }

  lemma NoteReads(n: Note, c: Checks)
    requires n.recipient < Width(43) && NoteAccepted(n, c)
    ensures ReadsAs(ReadNote(c), NoteBytes(n), n)
  {
    NoteFieldsRead(n);
    forall rest ensures ReadNote(c)(NoteBytes(n) + rest) == Some((n, rest)) {
      Next(ReadNoteFields(), NoteBytes(n), FieldsOf(n), rest);
      NoteBuilt(n, c);
    }
  }

  lemma NoteBuilt(n: Note, c: Checks)
    requires NoteAccepted(n, c)
    ensures BuildNote(FieldsOf(n), c) == Some(n)
  {
  }

  lemma HeldReads(h: HeldNote, c: Checks)
    requires HeldFits(h, c)
    ensures ReadsAs(ReadHeld(c), HeldBytes(h), (h.position, h))
  {
    U64Reads(h.position);
    U64Reads(h.height);
    Bytes32Reads(h.txid);
    NoteReads(h.note, c);
    ThenReads(ReadU64, ReadBytes32, U64Bytes(h.height), Be(h.txid, 32), h.height, h.txid);
    ThenReads(ReadU64, Then(ReadU64, ReadBytes32), U64Bytes(h.position), U64Bytes(h.height) + Be(h.txid, 32),
              h.position, (h.height, h.txid));
    ThenReads(ReadPlace(), ReadNote(c), PlaceBytes(h), NoteBytes(h.note), (h.position, (h.height, h.txid)), h.note);
    forall rest ensures ReadHeld(c)(HeldBytes(h) + rest) == Some(((h.position, h), rest)) {
      Next(Then(ReadPlace(), ReadNote(c)), HeldBytes(h), ((h.position, (h.height, h.txid)), h.note), rest);
    }
  }

  function EntryBytes(e: (nat, HeldNote)): seq<byte> {
    HeldBytes(e.1)
  }

  function ReadNotes(c: Checks): Parser<map<nat, HeldNote>> {
    MapParser(ReadHeld(c))
  }

  function NotesBytes(m: map<nat, HeldNote>): seq<byte> {
    MapBytes(EntryBytes, m)
  }

  predicate NotesFit(m: map<nat, HeldNote>, c: Checks) {
    |m| < 0x1_0000_0000 && forall p :: p in m ==> HeldFits(m[p], c)
  }

  lemma NotesRead(m: map<nat, HeldNote>, c: Checks)
    requires NotesFit(m, c) && Keyed(m)
    ensures ReadsAs(ReadNotes(c), NotesBytes(m), m)
  {
    forall p | p in m ensures ReadsAs(ReadHeld(c), EntryBytes((p, m[p])), (p, m[p])) {
      HeldReads(m[p], c);
    }
    MapReads(ReadHeld(c), EntryBytes, m);
  }

  // ------------------------------------------------------------ the store

  datatype Saved = Saved(
    tree: Parts,
    held: map<nat, HeldNote>,
    inFlight: map<nat, HeldNote>,
    spent: set<nat>,
    appended: nat,
    syncedTo: Option<nat>)

  /** The layout there has always been: up to the held notes. */
  function CoreBytes(s: Saved): seq<byte> {
    MAGIC + (U64Bytes(s.appended) + (OptBytes(s.syncedTo) + (PartsBytes(s.tree) + NotesBytes(s.held))))
  }

  function SpentBytes(s: set<nat>): seq<byte> {
    SetBytes(HashBytes, s)
  }

  /** `encode`. */
  function EncodeSpec(s: Saved): seq<byte> {
    CoreBytes(s) + (NotesBytes(s.inFlight) + SpentBytes(s.spent))
  }

  type Core = (nat, (Option<nat>, (Parts, map<nat, HeldNote>)))

  function ReadFields(c: Checks): Parser<Core> {
    Then(ReadU64, Then(ReadOpt, Then(ReadParts(c), ReadNotes(c))))
  }

  function ReadMagic(b: seq<byte>): Parsed<()> {
    match Take(b, 8)
    case None => None
    case Some((magic, rest)) => if magic == MAGIC then Some(((), rest)) else None
  }

  /** The parts added since: each is read if there is anything left. */
  function ReadTail(b: seq<byte>, c: Checks): Option<(map<nat, HeldNote>, set<nat>)> {
    if b == [] then Some((map[], {})) else
      match ReadNotes(c)(b)
      case None => None
      case Some((flying, rest)) =>
        if rest == [] then Some((flying, {})) else
          match SetParser(ReadRaw(32))(rest)
          case None => None
          case Some((spent, end)) => if end == [] then Some((flying, spent)) else None
  }

  /** `decode`. */
  function DecodeSpec(b: seq<byte>, c: Checks): Option<Saved> {
    match Then(ReadMagic, ReadFields(c))(b)
    case None => None
    case Some(((_, (appended, (syncedTo, (tree, held)))), rest)) =>
      match ReadTail(rest, c)
      case None => None
      case Some((flying, spent)) => Some(Saved(tree, held, flying, spent, appended, syncedTo))
  }

  predicate SpentFit(s: set<nat>) {
    |s| < 0x1_0000_0000 && forall h :: h in s ==> h < Width(32)
  }

  /** Every number fits its field, and every part is one the libraries accept. */
  predicate Fits(s: Saved, c: Checks) {
    && s.appended <= U64_MAX && OptFits(s.syncedTo) && PartsFit(s.tree, c)
    && NotesFit(s.held, c) && NotesFit(s.inFlight, c) && SpentFit(s.spent)
  }

  lemma MagicReads()
    ensures ReadsAs(ReadMagic, MAGIC, ())
  {
    forall rest: seq<byte> ensures ReadMagic(MAGIC + rest) == Some(((), rest)) {
      TakeForward(MAGIC, rest);
    }
  }

  function CoreOf(s: Saved): Core {
    (s.appended, (s.syncedTo, (s.tree, s.held)))
  }

  lemma CoreReads(s: Saved, c: Checks)
    requires Fits(s, c) && Keyed(s.held)
    ensures ReadsAs(Then(ReadMagic, ReadFields(c)), CoreBytes(s), ((), CoreOf(s)))
  {
    U64Reads(s.appended);
    OptReads(s.syncedTo);
    PartsRead(s.tree, c);
    NotesRead(s.held, c);
    MagicReads();
    var b2, b3 := PartsBytes(s.tree), NotesBytes(s.held);
    ThenReads(ReadParts(c), ReadNotes(c), b2, b3, s.tree, s.held);
    ThenReads(ReadOpt, Then(ReadParts(c), ReadNotes(c)), OptBytes(s.syncedTo), b2 + b3, s.syncedTo, (s.tree, s.held));
    ThenReads(ReadU64, Then(ReadOpt, Then(ReadParts(c), ReadNotes(c))),
              U64Bytes(s.appended), OptBytes(s.syncedTo) + (b2 + b3),
              s.appended, (s.syncedTo, (s.tree, s.held)));
    ThenReads(ReadMagic, ReadFields(c), MAGIC, U64Bytes(s.appended) + (OptBytes(s.syncedTo) + (b2 + b3)),
              (), CoreOf(s));
  }

  /** After the core, whatever is left decides the rest. */
  lemma DecodeIs(s: Saved, tail: seq<byte>, c: Checks)
    requires Fits(s, c) && Keyed(s.held)
    ensures DecodeSpec(CoreBytes(s) + tail, c)
         == match ReadTail(tail, c)
            case None => None
            case Some((flying, spent)) => Some(s.(inFlight := flying, spent := spent))
  {
    CoreReads(s, c);
    Next(Then(ReadMagic, ReadFields(c)), CoreBytes(s), ((), CoreOf(s)), tail);
  }

  lemma SpentReads(s: set<nat>)
    requires SpentFit(s)
    ensures ReadsAs(SetParser(ReadRaw(32)), SpentBytes(s), s)
  {
    forall h | h in s ensures ReadsAs(ReadRaw(32), HashBytes(h), h) {
      RawReads(h, 32);
    }
    SetReads(ReadRaw(32), HashBytes, s);
  }

  lemma TailReads(flying: map<nat, HeldNote>, spent: set<nat>, extra: seq<byte>, c: Checks)
    requires NotesFit(flying, c) && Keyed(flying) && SpentFit(spent)
    ensures ReadTail(NotesBytes(flying) + (SpentBytes(spent) + extra), c)
         == if extra == [] then Some((flying, spent)) else None
    ensures ReadTail(NotesBytes(flying), c) == Some((flying, {}))
  {
    NotesRead(flying, c);
    SpentReads(spent);
    Next(ReadNotes(c), NotesBytes(flying), flying, SpentBytes(spent) + extra);
    Next(ReadNotes(c), NotesBytes(flying), flying, []);
    assert NotesBytes(flying) + [] == NotesBytes(flying);
    Next(SetParser(ReadRaw(32)), SpentBytes(spent), spent, extra);
  }

  /** A store whose notes are filed under their positions comes back from disk as
      it was; bytes after the spent section are refused. */
  lemma RoundTrip(s: Saved, extra: seq<byte>, c: Checks)
    requires Fits(s, c) && Keyed(s.held) && Keyed(s.inFlight)
    ensures DecodeSpec(EncodeSpec(s), c) == Some(s)
    ensures extra != [] ==> DecodeSpec(EncodeSpec(s) + extra, c) == None
  {
    TailReads(s.inFlight, s.spent, extra, c);
    TailReads(s.inFlight, s.spent, [], c);
    assert SpentBytes(s.spent) + [] == SpentBytes(s.spent);
    DecodeIs(s, NotesBytes(s.inFlight) + SpentBytes(s.spent), c);
    DecodeIs(s, NotesBytes(s.inFlight) + (SpentBytes(s.spent) + extra), c);
    Assoc(CoreBytes(s), NotesBytes(s.inFlight) + SpentBytes(s.spent), extra);
    Assoc(NotesBytes(s.inFlight), SpentBytes(s.spent), extra);
  }

  /** A file from before there were notes in flight reads as having none. */
  lemma OldestLayout(s: Saved, c: Checks)
    requires Fits(s, c) && Keyed(s.held)
    ensures DecodeSpec(CoreBytes(s), c) == Some(s.(inFlight := map[], spent := {}))
  {
    CoreReads(s, c);
    Alone(Then(ReadMagic, ReadFields(c)), CoreBytes(s), ((), CoreOf(s)));
  }

  /** One from before spent nullifiers were kept reads as having seen none. */
  lemma OlderLayout(s: Saved, c: Checks)
    requires Fits(s, c) && Keyed(s.held) && Keyed(s.inFlight)
    ensures DecodeSpec(CoreBytes(s) + NotesBytes(s.inFlight), c) == Some(s.(spent := {}))
  {
    TailReads(s.inFlight, s.spent, [], c);
    DecodeIs(s, NotesBytes(s.inFlight), c);
  }

  // ------------------------------------------------------------ what decode can return

  lemma {:induction false} MapOfEntries<V>(es: seq<(nat, V)>)
    ensures forall p :: p in MapOf(es) ==> (p, MapOf(es)[p]) in es
  {
    if es != [] {
      MapOfEntries(es[..|es| - 1]);
    }
  }

  predicate EntryKeyed(e: (nat, HeldNote)) {
    e.1.position == e.0
  }

  lemma HeldIsKeyed(c: Checks)
    ensures forall b :: ReadHeld(c)(b).Some? ==> EntryKeyed(ReadHeld(c)(b).value.0)
  {
  }

  lemma KeyedEntries(es: seq<(nat, HeldNote)>)
    requires forall e :: e in es ==> EntryKeyed(e)
    ensures Keyed(MapOf(es))
  {
    MapOfEntries(es);
    forall p | p in MapOf(es) ensures MapOf(es)[p].position == p {
      assert EntryKeyed((p, MapOf(es)[p]));
    }
  }

  lemma CountedIs<T>(p: Parser<T>, b: seq<byte>)
    requires Counted(p)(b).Some?
    ensures ParseU32(b).Some? && Many(p, ParseU32(b).value.1, ParseU32(b).value.0) == Counted(p)(b)
  {
  }

  lemma NotesAreKeyed(b: seq<byte>, c: Checks)
    ensures ReadNotes(c)(b).Some? ==> Keyed(ReadNotes(c)(b).value.0)
  {
    if ReadNotes(c)(b).Some? {
      CountedIs(ReadHeld(c), b);
      HeldIsKeyed(c);
      ManyAll(ReadHeld(c), ParseU32(b).value.1, ParseU32(b).value.0, EntryKeyed);
      KeyedEntries(Counted(ReadHeld(c))(b).value.0);
    }
  }

  /** Whatever the bytes, a store read from disk has every note under its own
      position: so one that has not cannot come back as it was, and among the
      stores that fit the round trip holds exactly of those that have. */
  lemma RoundTripExactlyWhenKeyed(s: Saved, c: Checks)
    requires Fits(s, c)
    ensures DecodeSpec(EncodeSpec(s), c) == Some(s) <==> Keyed(s.held) && Keyed(s.inFlight)
  {
    if Keyed(s.held) && Keyed(s.inFlight) {
      RoundTrip(s, [], c);
    } else {
      DecodedIsKeyed(EncodeSpec(s), c);
    }
  }

  lemma ThenGives<A, B>(p: Parser<A>, q: Parser<B>, b: seq<byte>)
    requires Then(p, q)(b).Some?
    ensures p(b).Some? && q(p(b).value.1).Some?
    ensures Then(p, q)(b).value.0.1 == q(p(b).value.1).value.0
  {
  }

  lemma FieldsAreKeyed(b: seq<byte>, c: Checks)
    requires ReadFields(c)(b).Some?
    ensures Keyed(ReadFields(c)(b).value.0.1.1.1)
  {
    var q := Then(ReadOpt, Then(ReadParts(c), ReadNotes(c)));
    ThenGives(ReadU64, q, b);
    var r1 := ReadU64(b).value.1;
    ThenGives(ReadOpt, Then(ReadParts(c), ReadNotes(c)), r1);
    var r2 := ReadOpt(r1).value.1;
    ThenGives(ReadParts(c), ReadNotes(c), r2);
    NotesAreKeyed(ReadParts(c)(r2).value.1, c);
  }

  lemma TailIsKeyed(b: seq<byte>, c: Checks)
    requires ReadTail(b, c).Some?
    ensures Keyed(ReadTail(b, c).value.0)
  {
    NotesAreKeyed(b, c);
  }

  lemma DecodedIsKeyed(b: seq<byte>, c: Checks)
    ensures DecodeSpec(b, c).Some? ==> Keyed(DecodeSpec(b, c).value.held) && Keyed(DecodeSpec(b, c).value.inFlight)
  {
    if DecodeSpec(b, c).Some? {
      var core := Then(ReadMagic, ReadFields(c))(b).value;
      ThenGives(ReadMagic, ReadFields(c), b);
      FieldsAreKeyed(ReadMagic(b).value.1, c);
      TailIsKeyed(core.1, c);
    }
  }
}
