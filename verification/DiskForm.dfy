/** The file of the note store from outside (src/notes.rs:560-843): which stores some
    file reads as, and where each field of one stands. */
module DiskForm {
  import opened Prelude
  import opened Arith
  import opened Ordered
  import opened Wire
  import opened Notes
  import opened Disk

  // ------------------------------------------------------------ whatever is read fits

  /** All that a reader reads is of this kind. */
  ghost predicate Gives<T(!new)>(p: Parser<T>, good: T -> bool) {
    forall b :: p(b).Some? ==> good(p(b).value.0)
  }

  function Both<A, B>(f: A -> bool, g: B -> bool): ((A, B)) -> bool {
    (x: (A, B)) => f(x.0) && g(x.1)
  }

  lemma ThenGivesBoth<A(!new), B(!new)>(p: Parser<A>, q: Parser<B>, f: A -> bool, g: B -> bool)
    requires Gives(p, f) && Gives(q, g)
    ensures Gives(Then(p, q), Both(f, g))
  {
    forall b | Then(p, q)(b).Some? ensures Both(f, g)(Then(p, q)(b).value.0) {
      assert f(p(b).value.0) && g(q(p(b).value.1).value.0);
    }
  }

  ghost predicate AllOf<T(!new)>(xs: seq<T>, good: T -> bool) {
    |xs| < 0x1_0000_0000 && forall x :: x in xs ==> good(x)
  }

  lemma CountedGives<T(!new)>(p: Parser<T>, good: T -> bool, b: seq<byte>)
    requires Gives(p, good) && Counted(p)(b).Some?
    ensures AllOf(Counted(p)(b).value.0, good)
  {
    CountedIs(p, b);
    ManyAll(p, ParseU32(b).value.1, ParseU32(b).value.0, good);
  }

  ghost predicate SetOfAll(s: set<nat>, good: nat -> bool) {
    |s| < 0x1_0000_0000 && forall x :: x in s ==> good(x)
  }

  lemma {:induction false} SetIsSmaller(xs: seq<nat>)
    ensures |set x: nat | x in xs| <= |xs|
  {
    if xs != [] {
      var n := |xs| - 1;
      SetIsSmaller(xs[..n]);
      assert xs == xs[..n] + [xs[n]];
      assert (set x: nat | x in xs) == (set x: nat | x in xs[..n]) + {xs[n]};
    }
  }

  lemma SetGives(p: Parser<nat>, good: nat -> bool, b: seq<byte>)
    requires Gives(p, good) && SetParser(p)(b).Some?
    ensures SetOfAll(SetParser(p)(b).value.0, good)
  {
    CountedGives(p, good, b);
    SetIsSmaller(Counted(p)(b).value.0);
  }

  ghost predicate MapOfAll<V(!new)>(m: map<nat, V>, good: ((nat, V)) -> bool) {
    |m| < 0x1_0000_0000 && forall k :: k in m ==> good((k, m[k]))
  }

  lemma {:induction false} MapIsSmaller<V>(es: seq<(nat, V)>)
    ensures |MapOf(es)| <= |es|
  {
    if es != [] {
      var n := |es| - 1;
      var before := MapOf(es[..n]);
      MapIsSmaller(es[..n]);
      assert MapOf(es).Keys == before.Keys + {es[n].0};
      assert |MapOf(es)| == |MapOf(es).Keys| && |before| == |before.Keys|;
    }
  }

  lemma MapGives<V(!new)>(p: Parser<(nat, V)>, good: ((nat, V)) -> bool, b: seq<byte>)
    requires Gives(p, good) && MapParser(p)(b).Some?
    ensures MapOfAll(MapParser(p)(b).value.0, good)
  {
    var es := Counted(p)(b).value.0;
    CountedGives(p, good, b);
    MapIsSmaller(es);
    MapOfEntries(es);
  }

  function HashKind(c: Checks): nat -> bool { (h: nat) => HashFits(h, c) }

  const SMALL: nat -> bool := (n: nat) => n <= U64_MAX

  lemma HashGives(c: Checks)
    ensures Gives(ReadHash(c), HashKind(c))
  {
    forall b | Take(b, 32).Some? ensures FromBe(Take(b, 32).value.0) < Width(32) {
      BeOfFromBe(Take(b, 32).value.0);
    }
  }

  lemma RawGives(b: seq<byte>, w: nat)
    requires ReadRaw(w)(b).Some?
    ensures ReadRaw(w)(b).value.0 < Width(w)
  {
    BeOfFromBe(Take(b, w).value.0);
  }

  lemma U64Gives()
    ensures Gives(ReadU64, SMALL)
  {
  }

  function AddressKind(): nat -> bool { (a: nat) => AddressFits(a) }

  lemma AddressGives()
    ensures Gives(ReadAddress, AddressKind())
  {
  }

  lemma OptGives(b: seq<byte>)
    requires ReadOpt(b).Some?
    ensures OptFits(ReadOpt(b).value.0)
  {
  }

  lemma ThenParts<A, B>(p: Parser<A>, q: Parser<B>, b: seq<byte>)
    requires Then(p, q)(b).Some?
    ensures p(b).Some? && q(p(b).value.1).Some?
    ensures Then(p, q)(b).value == ((p(b).value.0, q(p(b).value.1).value.0), q(p(b).value.1).value.1)
  {
  }

  lemma FrontierGives(c: Checks, b: seq<byte>)
    requires ReadFrontier(c)(b).Some?
    ensures FrontierFits(ReadFrontier(c)(b).value.0, c)
  {
    HashGives(c);
    var tail := Then(ReadHash(c), Counted(ReadHash(c)));
    ThenParts(ReadU64, tail, b);
    var mid := ReadU64(b).value.1;
    ThenParts(ReadHash(c), Counted(ReadHash(c)), mid);
    CountedGives(ReadHash(c), HashKind(c), ReadHash(c)(mid).value.1);
    AllHashesFit(Counted(ReadHash(c))(ReadHash(c)(mid).value.1).value.0, c);
  }

  lemma AllHashesFit(hs: seq<nat>, c: Checks)
    requires AllOf(hs, HashKind(c))
    ensures |hs| < 0x1_0000_0000 && forall h :: h in hs ==> HashFits(h, c)
  {
    assert forall h :: h in hs ==> HashKind(c)(h);
  }

  lemma OmmersGive(c: Checks, b: seq<byte>)
    requires ReadOmmers(c)(b).Some?
    ensures var m := ReadOmmers(c)(b).value.0;
            |m| < 0x1_0000_0000 && forall a :: a in m ==> AddressFits(a) && HashFits(m[a], c)
  {
    HashGives(c);
    AddressGives();
    ThenGivesBoth(ReadAddress, ReadHash(c), AddressKind(), HashKind(c));
    MapGives(Then(ReadAddress, ReadHash(c)), Both(AddressKind(), HashKind(c)), b);
    var m := ReadOmmers(c)(b).value.0;
    forall a | a in m ensures AddressFits(a) && HashFits(m[a], c) {
      assert Both(AddressKind(), HashKind(c))((a, m[a]));
    }
  }

  lemma TrackingGives(b: seq<byte>)
    requires SetParser(ReadAddress)(b).Some?
    ensures var s := SetParser(ReadAddress)(b).value.0;
            |s| < 0x1_0000_0000 && forall a :: a in s ==> AddressFits(a)
  {
    AddressGives();
    SetGives(ReadAddress, AddressKind(), b);
    assert forall a :: a in SetParser(ReadAddress)(b).value.0 ==> AddressKind()(a);
  }

  lemma BridgeFieldsGive(b: seq<byte>, c: Checks)
    requires ReadBridgeFields(c)(b).Some?
    ensures var (prior, (tracking, (ommers, frontier))) := ReadBridgeFields(c)(b).value.0;
            BridgeFits(Bridge(prior, tracking, ommers, frontier), c)
  {
    var q2 := Then(ReadOmmers(c), ReadFrontier(c));
    ThenParts(ReadOpt, Then(SetParser(ReadAddress), q2), b);
    OptGives(b);
    var b1 := ReadOpt(b).value.1;
    ThenParts(SetParser(ReadAddress), q2, b1);
    TrackingGives(b1);
    var b2 := SetParser(ReadAddress)(b1).value.1;
    ThenParts(ReadOmmers(c), ReadFrontier(c), b2);
    OmmersGive(c, b2);
    FrontierGives(c, ReadOmmers(c)(b2).value.1);
  }

  lemma BridgeGivesAt(b: seq<byte>, c: Checks)
    requires ReadBridge(c)(b).Some?
    ensures BridgeFits(ReadBridge(c)(b).value.0, c)
  {
    BridgeFieldsGive(b, c);
  }

  function BridgeKind(c: Checks): Bridge -> bool { (x: Bridge) => BridgeFits(x, c) }

  lemma BridgeGives(c: Checks)
    ensures Gives(ReadBridge(c), BridgeKind(c))
  {
    forall b | ReadBridge(c)(b).Some? ensures BridgeKind(c)(ReadBridge(c)(b).value.0) {
      BridgeGivesAt(b, c);
    }
  }

  lemma PositionsGive(b: seq<byte>)
    requires SetParser(ReadU64)(b).Some?
    ensures PositionsFit(SetParser(ReadU64)(b).value.0)
  {
    U64Gives();
    SetGives(ReadU64, SMALL, b);
    assert forall p :: p in SetParser(ReadU64)(b).value.0 ==> SMALL(p);
  }

  lemma MarkFieldsGive(b: seq<byte>)
    requires ReadMarkFields()(b).Some?
    ensures var (id, (bridges, (marked, forgotten))) := ReadMarkFields()(b).value.0;
            MarkFits(Mark(id, bridges, marked, forgotten))
  {
    var sets := Then(SetParser(ReadU64), SetParser(ReadU64));
    ThenParts(ReadU32, Then(ReadU64, sets), b);
    var b1 := ReadU32(b).value.1;
    ThenParts(ReadU64, sets, b1);
    var b2 := ReadU64(b1).value.1;
    ThenParts(SetParser(ReadU64), SetParser(ReadU64), b2);
    PositionsGive(b2);
    PositionsGive(SetParser(ReadU64)(b2).value.1);
  }

  function MarkKind(): Mark -> bool { (m: Mark) => MarkFits(m) }

  lemma MarkGives()
    ensures Gives(ReadMark(), MarkKind())
  {
    forall b | ReadMark()(b).Some? ensures MarkKind()(ReadMark()(b).value.0) {
      MarkFieldsGive(b);
    }
  }

  lemma SavedGives(b: seq<byte>)
    requires MapParser(Then(ReadU64, ReadU64))(b).Some?
    ensures var m := MapParser(Then(ReadU64, ReadU64))(b).value.0;
            |m| < 0x1_0000_0000 && forall p :: p in m ==> p <= U64_MAX && m[p] <= U64_MAX
  {
    U64Gives();
    ThenGivesBoth(ReadU64, ReadU64, SMALL, SMALL);
    MapGives(Then(ReadU64, ReadU64), Both<nat, nat>(SMALL, SMALL), b);
    SavedAreSmall(MapParser(Then(ReadU64, ReadU64))(b).value.0);
  }

  lemma SavedAreSmall(m: map<nat, nat>)
    requires MapOfAll(m, Both<nat, nat>(SMALL, SMALL))
    ensures forall p :: p in m ==> p <= U64_MAX && m[p] <= U64_MAX
  {
    forall p | p in m ensures p <= U64_MAX && m[p] <= U64_MAX {
      assert Both<nat, nat>(SMALL, SMALL)((p, m[p]));
    }
  }

  lemma CurrentGives(b: seq<byte>, c: Checks)
    requires ReadCurrent(c)(b).Some?
    ensures ReadCurrent(c)(b).value.0.Some? ==> BridgeFits(ReadCurrent(c)(b).value.0.value, c)
  {
    var mid := ReadU8(b).value.1;
    if ReadBridge(c)(mid).Some? {
      BridgeGivesAt(mid, c);
    }
  }

  lemma ListsGive(t: Parts, c: Checks)
    requires AllOf(t.prior, BridgeKind(c)) && AllOf(t.checkpoints, MarkKind())
    ensures |t.prior| < 0x1_0000_0000 && |t.checkpoints| < 0x1_0000_0000
    ensures (forall x :: x in t.prior ==> BridgeFits(x, c)) && forall m :: m in t.checkpoints ==> MarkFits(m)
  {
    assert forall x :: x in t.prior ==> BridgeKind(c)(x);
    assert forall m :: m in t.checkpoints ==> MarkKind()(m);
  }

  lemma PartsFieldsGive(b: seq<byte>, c: Checks)
    requires ReadPartsFields(c)(b).Some?
    ensures var (most, (prior, (current, (saved, checkpoints)))) := ReadPartsFields(c)(b).value.0;
            && most < 0x1_0000_0000 && AllOf(prior, BridgeKind(c)) && AllOf(checkpoints, MarkKind())
            && (current.Some? ==> BridgeFits(current.value, c))
            && |saved| < 0x1_0000_0000 && forall p :: p in saved ==> p <= U64_MAX && saved[p] <= U64_MAX
  {
    var saved, marks := MapParser(Then(ReadU64, ReadU64)), Counted(ReadMark());
    var q3 := Then(saved, marks);
    BridgeGives(c);
    MarkGives();
    ThenParts(ReadU32, Then(Counted(ReadBridge(c)), Then(ReadCurrent(c), q3)), b);
    var b1 := ReadU32(b).value.1;
    ThenParts(Counted(ReadBridge(c)), Then(ReadCurrent(c), q3), b1);
    CountedGives(ReadBridge(c), BridgeKind(c), b1);
    var b2 := Counted(ReadBridge(c))(b1).value.1;
    ThenParts(ReadCurrent(c), q3, b2);
    CurrentGives(b2, c);
    var b3 := ReadCurrent(c)(b2).value.1;
    ThenParts(saved, marks, b3);
    SavedGives(b3);
    CountedGives(ReadMark(), MarkKind(), saved(b3).value.1);
  }

  lemma PartsGive(b: seq<byte>, c: Checks)
    requires ReadParts(c)(b).Some?
    ensures PartsFit(ReadParts(c)(b).value.0, c)
  {
    PartsFieldsGive(b, c);
    ListsGive(ReadParts(c)(b).value.0, c);
  }

  lemma PlaceGives(b: seq<byte>)
    requires ReadPlace()(b).Some?
    ensures ReadPlace()(b).value.0.0 <= U64_MAX && ReadPlace()(b).value.0.1.0 <= U64_MAX
  {
    ThenParts(ReadU64, Then(ReadU64, ReadBytes32), b);
    ThenParts(ReadU64, ReadBytes32, ReadU64(b).value.1);
  }

  lemma NoteGives(b: seq<byte>, c: Checks)
    requires ReadNote(c)(b).Some?
    ensures var n := ReadNote(c)(b).value.0; n.recipient < Width(43) && NoteAccepted(n, c)
  {
    assert ReadNoteFields()(b).Some?;
    ThenParts(ReadRaw(43), Then(ParseU64, Then(ReadBytes32, Then(ReadBytes32, ReadU8))), b);
    RawGives(b, 43);
  }

  function HeldKind(c: Checks): ((nat, HeldNote)) -> bool { (e: (nat, HeldNote)) => HeldFits(e.1, c) }

  lemma HeldGives(c: Checks)
    ensures Gives(ReadHeld(c), HeldKind(c))
  {
    forall b | ReadHeld(c)(b).Some? ensures HeldKind(c)(ReadHeld(c)(b).value.0) {
      ThenParts(ReadPlace(), ReadNote(c), b);
      PlaceGives(b);
      NoteGives(ReadPlace()(b).value.1, c);
    }
  }

  lemma NotesGive(b: seq<byte>, c: Checks)
    requires ReadNotes(c)(b).Some?
    ensures NotesFit(ReadNotes(c)(b).value.0, c)
  {
    HeldGives(c);
    MapGives(ReadHeld(c), HeldKind(c), b);
    var m := ReadNotes(c)(b).value.0;
    forall p | p in m ensures HeldFits(m[p], c) {
      assert HeldKind(c)((p, m[p]));
    }
  }

  function RawKind(): nat -> bool { (n: nat) => n < Width(32) }

  lemma SpentGives(b: seq<byte>)
    requires SetParser(ReadRaw(32))(b).Some?
    ensures SpentFit(SetParser(ReadRaw(32))(b).value.0)
  {
    forall b | ReadRaw(32)(b).Some? ensures RawKind()(ReadRaw(32)(b).value.0) {
      RawGives(b, 32);
    }
    SetGives(ReadRaw(32), RawKind(), b);
    assert forall h :: h in SetParser(ReadRaw(32))(b).value.0 ==> RawKind()(h);
  }

  lemma TailGives(b: seq<byte>, c: Checks)
    requires ReadTail(b, c).Some?
    ensures NotesFit(ReadTail(b, c).value.0, c) && SpentFit(ReadTail(b, c).value.1)
  {
    if b != [] {
      NotesGive(b, c);
      var rest := ReadNotes(c)(b).value.1;
      if rest != [] {
        SpentGives(rest);
      }
    }
  }

  lemma CoreGives(b: seq<byte>, c: Checks)
    requires ReadFields(c)(b).Some?
    ensures var (appended, (syncedTo, (tree, held))) := ReadFields(c)(b).value.0;
            appended <= U64_MAX && OptFits(syncedTo) && PartsFit(tree, c) && NotesFit(held, c)
  {
    var q := Then(ReadParts(c), ReadNotes(c));
    ThenParts(ReadU64, Then(ReadOpt, q), b);
    var b1 := ReadU64(b).value.1;
    ThenParts(ReadOpt, q, b1);
    OptGives(b1);
    var b2 := ReadOpt(b1).value.1;
    ThenParts(ReadParts(c), ReadNotes(c), b2);
    PartsGive(b2, c);
    NotesGive(ReadParts(c)(b2).value.1, c);
  }

  lemma DecodedFits(b: seq<byte>, c: Checks)
    requires DecodeSpec(b, c).Some?
    ensures Fits(DecodeSpec(b, c).value, c)
  {
    ThenParts(ReadMagic, ReadFields(c), b);
    CoreGives(ReadMagic(b).value.1, c);
    TailGives(Then(ReadMagic, ReadFields(c))(b).value.1, c);
  }

  /** The stores that some file reads as are exactly those whose numbers fit their
      fields, whose parts the libraries accept, and whose notes are each filed under
      their own position; and every one of them is read from its own encoding. */
  lemma ReadableExactlyWhen(s: Saved, c: Checks)
    ensures (exists b :: DecodeSpec(b, c) == Some(s)) <==> Fits(s, c) && Keyed(s.held) && Keyed(s.inFlight)
  {
    if b :| DecodeSpec(b, c) == Some(s) {
      DecodedFits(b, c);
      DecodedIsKeyed(b, c);
    }
    if Fits(s, c) && Keyed(s.held) && Keyed(s.inFlight) {
      RoundTrip(s, [], c);
    }
  }

  // ------------------------------------------------------------ where the fields stand

  /** A note is 164 bytes: its position, its height and its txid; the address, the
      value, rho, the seed; and 2 or 3 for the version. */
  lemma HeldLayout(h: HeldNote)
    ensures var b := HeldBytes(h);
            && |b| == 164
            && b[..8] == Le(h.position, 8) && b[8..16] == Le(h.height, 8) && b[16..48] == Be(h.txid, 32)
            && b[48..91] == Be(h.note.recipient, 43) && b[91..99] == Le(h.note.value, 8)
            && b[99..131] == Be(h.note.rho, 32) && b[131..163] == Be(h.note.rseed, 32)
            && b[163] == if h.note.version == V2 then 2 else 3
  {
    PlaceLayout(h);
    NoteLayout(h.note);
    var place, note := PlaceBytes(h), NoteBytes(h.note);
    var b := place + note;
    assert b[..48] == place && b[48..] == note;
    assert b[..8] == place[..8] && b[8..16] == place[8..16] && b[16..48] == place[16..48];
    assert b[48..91] == note[..43] && b[91..99] == note[43..51] && b[99..131] == note[51..83];
    assert b[131..163] == note[83..115] && b[163] == note[115];
  }

  lemma PlaceLayout(h: HeldNote)
    ensures var b := PlaceBytes(h);
            |b| == 48 && b[..8] == Le(h.position, 8) && b[8..16] == Le(h.height, 8) && b[16..48] == Be(h.txid, 32)
  {
  }

  lemma NoteLayout(n: Note)
    ensures var b := NoteBytes(n);
            && |b| == 116
            && b[..43] == Be(n.recipient, 43) && b[43..51] == Le(n.value, 8)
            && b[51..83] == Be(n.rho, 32) && b[83..115] == Be(n.rseed, 32)
            && b[115] == if n.version == V2 then 2 else 3
  {
  }

  /** The file starts with its name, the number of leaves, and whether and how far the
      store is complete: a nought where it is not. */
  lemma FileLayout(s: Saved)
    ensures var b := EncodeSpec(s);
            && |b| >= 25
            && b[..8] == [0x5A, 0x45, 0x43, 0x4E, 0x4F, 0x54, 0x45, 0x31] && b[8..16] == Le(s.appended, 8)
            && b[16] == (if s.syncedTo.Some? then 1 else 0)
            && b[17..25] == Le(if s.syncedTo.Some? then s.syncedTo.value else 0, 8)
            && b[25..] == PartsBytes(s.tree)
                 + (NotesBytes(s.held) + (NotesBytes(s.inFlight) + SpentBytes(s.spent)))
  {
    var parts, held := PartsBytes(s.tree), NotesBytes(s.held);
    var tail := NotesBytes(s.inFlight) + SpentBytes(s.spent);
    FileJoins(MAGIC, U64Bytes(s.appended), OptBytes(s.syncedTo), parts, held, tail);
    Slices(MAGIC, U64Bytes(s.appended), OptBytes(s.syncedTo), parts + (held + tail));
    OptLayout(s.syncedTo);
    var b := EncodeSpec(s);
    assert b[16..25] == OptBytes(s.syncedTo);
    assert b[16] == b[16..25][0] && b[17..25] == b[16..25][1..];
  }

  lemma OptLayout(v: Option<nat>)
    ensures |OptBytes(v)| == 9 && OptBytes(v)[0] == (if v.Some? then 1 else 0)
    ensures OptBytes(v)[1..] == Le(if v.Some? then v.value else 0, 8)
  {
  }

  lemma Slices(a: seq<byte>, b: seq<byte>, c: seq<byte>, d: seq<byte>)
    ensures var s := a + (b + (c + d));
            && s[..|a|] == a && s[|a|..|a| + |b|] == b
            && s[|a| + |b|..|a| + |b| + |c|] == c && s[|a| + |b| + |c|..] == d
  {
  }

  lemma FileJoins(a: seq<byte>, b: seq<byte>, c: seq<byte>, d: seq<byte>, e: seq<byte>, f: seq<byte>)
    ensures (a + (b + (c + (d + e)))) + f == a + (b + (c + (d + (e + f))))
  {
    Assoc(a, b + (c + (d + e)), f);
    Assoc(b, c + (d + e), f);
    Assoc(c, d + e, f);
    Assoc(d, e, f);
  }

  /** The notes of a map, counted and in order of position. */
  lemma NotesLayout(m: map<nat, HeldNote>)
    ensures |NotesBytes(m)| >= 4 && NotesBytes(m)[..4] == Le(|m|, 4)
    ensures NotesBytes(m)[4..] == NotesInOrder(Ascending(m.Keys), m)
  {
    EntryCount(m);
    EntriesInOrder(Ascending(m.Keys), m);
  }

  function NotesInOrder(keys: seq<nat>, m: map<nat, HeldNote>): seq<byte>
    requires forall k :: k in keys ==> k in m
  {
    if keys == [] then [] else NotesInOrder(keys[..|keys| - 1], m) + HeldBytes(m[keys[|keys| - 1]])
  }

  lemma {:induction false} EntriesInOrder(keys: seq<nat>, m: map<nat, HeldNote>)
    requires forall k :: k in keys ==> k in m
    ensures Cat(EntryBytes, Entries(keys, m)) == NotesInOrder(keys, m)
  {
    if keys != [] {
      var n := |keys| - 1;
      EntriesInOrder(keys[..n], m);
      CatAppend(EntryBytes, Entries(keys[..n], m), (keys[n], m[keys[n]]));
    }
  }

  /** A bridge: its prior position, the addresses it tracks, its ommers by address,
      and its frontier's position, leaf and ommers, each list counted. */
  lemma BridgeLayout(x: Bridge)
    ensures BridgeBytes(x)
         == ([if x.prior.Some? then 1 else 0] + Le(if x.prior.Some? then x.prior.value else 0, 8))
            + ((Le(|x.tracking|, 4) + Cat(AddressBytes, Ascending(x.tracking)))
            + ((Le(|x.ommers|, 4) + Cat(OmmerBytes, Entries(Ascending(x.ommers.Keys), x.ommers)))
            + (Le(x.frontier.position, 8) + (Be(x.frontier.leaf, 32)
            + (Le(|x.frontier.ommers|, 4) + Cat(HashBytes, x.frontier.ommers))))))
  {
    EntryCount(x.ommers);
  }

  /** A checkpoint: its id, the number of bridges, and two counted lists of positions. */
  lemma MarkLayout(m: Mark)
    ensures MarkBytes(m)
         == Le(m.id, 4) + (Le(m.bridges, 8) + ((Le(|m.marked|, 4) + Cat(U64Bytes, Ascending(m.marked)))
            + (Le(|m.forgotten|, 4) + Cat(U64Bytes, Ascending(m.forgotten)))))
  {
  }

  /** The tree: how many checkpoints it keeps, its bridges, the one under
      construction behind a flag, its marks by position, and its checkpoints. */
  lemma PartsLayout(t: Parts)
    ensures PartsBytes(t)
         == Le(t.most, 4) + ((Le(|t.prior|, 4) + Cat(BridgeBytes, t.prior))
            + ((if t.current.Some? then [1] + BridgeBytes(t.current.value) else [0])
            + ((Le(|t.saved|, 4) + Cat(SavedBytes, Entries(Ascending(t.saved.Keys), t.saved)))
            + (Le(|t.checkpoints|, 4) + Cat(MarkBytes, t.checkpoints)))))
  {
    EntryCount(t.saved);
  }

  /** An address inside the tree is a byte of level and an index; a mark, a position
      and a number; an ommer, an address and a hash. */
  lemma EntryLayout(a: nat, h: nat)
    requires AddressFits(a)
    ensures AddressBytes(a) == [a / 0x1_0000_0000_0000_0000] + Le(a % 0x1_0000_0000_0000_0000, 8)
    ensures SavedBytes((a, h)) == Le(a, 8) + Le(h, 8) && OmmerBytes((a, h)) == AddressBytes(a) + Be(h, 32)
  {
    DivModEq(a, LEVEL);
  }
}
