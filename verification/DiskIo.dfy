/** The writer and the reader of the note store's file (src/notes.rs, module
    `disk`): a buffer that grows and a cursor that moves, field by field. */
module DiskIo {
  import opened Prelude
  import opened Ordered
  import opened Wire
  import opened Notes
  import opened Disk

  // ------------------------------------------------------------ writing

  lemma CountedWritten<T>(enc: T -> seq<byte>, o: seq<byte>, xs: seq<T>)
    ensures o + Le(|xs|, 4) + Cat(enc, xs[..|xs|]) == o + CountedBytes(enc, xs)
  {
    assert xs[..|xs|] == xs;
    Assoc(o, Le(|xs|, 4), Cat(enc, xs));
  }

  lemma Join3(o: seq<byte>, a: seq<byte>, b: seq<byte>, c: seq<byte>)
    ensures o + a + b + c == o + (a + (b + c))
  {
    Assoc(o + a, b, c);
    Assoc(o, a, b + c);
  }

  lemma Join4(o: seq<byte>, a: seq<byte>, b: seq<byte>, c: seq<byte>, d: seq<byte>)
    ensures o + a + b + c + d == o + (a + (b + (c + d)))
  {
    Assoc(o + a + b, c, d);
    Join3(o, a, b, c + d);
  }

  lemma Join5(o: seq<byte>, a: seq<byte>, b: seq<byte>, c: seq<byte>, d: seq<byte>, e: seq<byte>)
    ensures o + a + b + c + d + e == o + (a + (b + (c + (d + e))))
  {
    Assoc(o + a + b + c, d, e);
    Join4(o, a, b, c, d + e);
  }

  class Writer {
    var bytes: seq<byte>

    constructor ()
      ensures bytes == []
    {
      bytes := [];
    }

    method U8(v: byte)
      modifies this
      ensures bytes == old(bytes) + [v]
    {
      bytes := bytes + [v];
    }

    method U32(n: nat)
      modifies this
      ensures bytes == old(bytes) + U32Bytes(n)
    {
      bytes := bytes + Le(n, 4);
    }

    method U64(n: nat)
      modifies this
      ensures bytes == old(bytes) + U64Bytes(n)
    {
      bytes := bytes + Le(n, 8);
    }

    method Bytes(b: seq<byte>)
      modifies this
      ensures bytes == old(bytes) + b
    {
      bytes := bytes + b;
    }

    method OptU64(v: Option<nat>)
      modifies this
      ensures bytes == old(bytes) + OptBytes(v)
    {
      ghost var o := bytes;
      U8(if v.Some? then 1 else 0);
      U64(if v.Some? then v.value else 0);
      Assoc(o, [if v.Some? then 1 else 0], U64Bytes(if v.Some? then v.value else 0));
    }

    method Address(a: nat)
      modifies this
      ensures bytes == old(bytes) + AddressBytes(a)
    {
      Bytes(AddressBytes(a));
    }

    /** The ommers of a frontier. */
    method Hashes(hs: seq<nat>)
      modifies this
      ensures bytes == old(bytes) + CountedBytes(HashBytes, hs)
    {
      ghost var o := bytes;
      U32(|hs|);
      var i := 0;
      while i < |hs|
        invariant 0 <= i <= |hs| && bytes == o + Le(|hs|, 4) + Cat(HashBytes, hs[..i])
      {
        Bytes(HashBytes(hs[i]));
        WroteOne(HashBytes, o + Le(|hs|, 4), hs, i);
        i := i + 1;
      }
      CountedWritten(HashBytes, o, hs);
    }

    method Frontier(f: Disk.Frontier)
      modifies this
      ensures bytes == old(bytes) + FrontierBytes(f)
    {
      ghost var o := bytes;
      U64(f.position);
      Bytes(HashBytes(f.leaf));
      Hashes(f.ommers);
      Join3(o, U64Bytes(f.position), HashBytes(f.leaf), CountedBytes(HashBytes, f.ommers));
    }

    /** The positions a bridge tracks. */
    method Tracking(s: set<nat>)
      modifies this
      ensures bytes == old(bytes) + SetBytes(AddressBytes, s)
    {
      ghost var o := bytes;
      var all := Ascending(s);
      U32(|all|);
      var i := 0;
      while i < |all|
        invariant 0 <= i <= |all| && bytes == o + Le(|all|, 4) + Cat(AddressBytes, all[..i])
      {
        Address(all[i]);
        WroteOne(AddressBytes, o + Le(|all|, 4), all, i);
        i := i + 1;
      }
      CountedWritten(AddressBytes, o, all);
    }

    method Ommers(m: map<nat, nat>)
      modifies this
      ensures bytes == old(bytes) + MapBytes(OmmerBytes, m)
    {
      ghost var o := bytes;
      var all := Entries(Ascending(m.Keys), m);
      U32(|all|);
      var i := 0;
      while i < |all|
        invariant 0 <= i <= |all| && bytes == o + Le(|all|, 4) + Cat(OmmerBytes, all[..i])
      {
        ghost var before := bytes;
        Address(all[i].0);
        Bytes(HashBytes(all[i].1));
        Assoc(before, AddressBytes(all[i].0), HashBytes(all[i].1));
        WroteOne(OmmerBytes, o + Le(|all|, 4), all, i);
        i := i + 1;
      }
      CountedWritten(OmmerBytes, o, all);
    }

    method Bridge(x: Disk.Bridge)
      modifies this
      ensures bytes == old(bytes) + BridgeBytes(x)
    {
      ghost var o := bytes;
      OptU64(x.prior);
      Tracking(x.tracking);
      Ommers(x.ommers);
      Frontier(x.frontier);
      Join4(o, OptBytes(x.prior), SetBytes(AddressBytes, x.tracking), MapBytes(OmmerBytes, x.ommers),
            FrontierBytes(x.frontier));
    }

    method Bridges(xs: seq<Disk.Bridge>)
      modifies this
      ensures bytes == old(bytes) + CountedBytes(BridgeBytes, xs)
    {
      ghost var o := bytes;
      U32(|xs|);
      var i := 0;
      while i < |xs|
        invariant 0 <= i <= |xs| && bytes == o + Le(|xs|, 4) + Cat(BridgeBytes, xs[..i])
      {
        Bridge(xs[i]);
        WroteOne(BridgeBytes, o + Le(|xs|, 4), xs, i);
        i := i + 1;
      }
      CountedWritten(BridgeBytes, o, xs);
    }

    method Current(x: Option<Disk.Bridge>)
      modifies this
      ensures bytes == old(bytes) + CurrentBytes(x)
    {
      ghost var o := bytes;
      U8(if x.Some? then 1 else 0);
      if x.Some? {
        Bridge(x.value);
        Assoc(o, [1], BridgeBytes(x.value));
      }
    }

    method SavedMarks(m: map<nat, nat>)
      modifies this
      ensures bytes == old(bytes) + MapBytes(SavedBytes, m)
    {
      ghost var o := bytes;
      var all := Entries(Ascending(m.Keys), m);
      U32(|all|);
      var i := 0;
      while i < |all|
        invariant 0 <= i <= |all| && bytes == o + Le(|all|, 4) + Cat(SavedBytes, all[..i])
      {
        ghost var before := bytes;
        U64(all[i].0);
        U64(all[i].1);
        Assoc(before, U64Bytes(all[i].0), U64Bytes(all[i].1));
        WroteOne(SavedBytes, o + Le(|all|, 4), all, i);
        i := i + 1;
      }
      CountedWritten(SavedBytes, o, all);
    }

    method Positions(s: set<nat>)
      modifies this
      ensures bytes == old(bytes) + SetBytes(U64Bytes, s)
    {
      ghost var o := bytes;
      var all := Ascending(s);
      U32(|all|);
      var i := 0;
      while i < |all|
        invariant 0 <= i <= |all| && bytes == o + Le(|all|, 4) + Cat(U64Bytes, all[..i])
      {
        U64(all[i]);
        WroteOne(U64Bytes, o + Le(|all|, 4), all, i);
        i := i + 1;
      }
      CountedWritten(U64Bytes, o, all);
    }

    method Checkpoint(m: Mark)
      modifies this
      ensures bytes == old(bytes) + MarkBytes(m)
    {
      ghost var o := bytes;
      U32(m.id);
      U64(m.bridges);
      Positions(m.marked);
      Positions(m.forgotten);
      Join4(o, U32Bytes(m.id), U64Bytes(m.bridges), SetBytes(U64Bytes, m.marked), SetBytes(U64Bytes, m.forgotten));
    }

    method Checkpoints(ms: seq<Mark>)
      modifies this
      ensures bytes == old(bytes) + CountedBytes(MarkBytes, ms)
    {
      ghost var o := bytes;
      U32(|ms|);
      var i := 0;
      while i < |ms|
        invariant 0 <= i <= |ms| && bytes == o + Le(|ms|, 4) + Cat(MarkBytes, ms[..i])
      {
        Checkpoint(ms[i]);
        WroteOne(MarkBytes, o + Le(|ms|, 4), ms, i);
        i := i + 1;
      }
      CountedWritten(MarkBytes, o, ms);
    }

    method Tree(t: Parts)
      modifies this
      ensures bytes == old(bytes) + PartsBytes(t)
    {
      ghost var o := bytes;
      U32(t.most);
      Bridges(t.prior);
      Current(t.current);
      SavedMarks(t.saved);
      Checkpoints(t.checkpoints);
      Join5(o, U32Bytes(t.most), CountedBytes(BridgeBytes, t.prior), CurrentBytes(t.current),
            MapBytes(SavedBytes, t.saved), CountedBytes(MarkBytes, t.checkpoints));
    }

    method Held(h: HeldNote)
      modifies this
      ensures bytes == old(bytes) + HeldBytes(h)
    {
      ghost var o := bytes;
      U64(h.position);
      U64(h.height);
      Bytes(Be(h.txid, 32));
      Join3(o, U64Bytes(h.position), U64Bytes(h.height), Be(h.txid, 32));
      Note(h.note);
      Assoc(o, PlaceBytes(h), NoteBytes(h.note));
    }

    method Note(n: Notes.Note)
      modifies this
      ensures bytes == old(bytes) + NoteBytes(n)
    {
      ghost var o := bytes;
      Bytes(Be(n.recipient, 43));
      U64(n.value);
      Bytes(Be(n.rho, 32));
      Bytes(Be(n.rseed, 32));
      U8(VersionByte(n.version));
      Join5(o, Be(n.recipient, 43), U64Bytes(n.value), Be(n.rho, 32), Be(n.rseed, 32), [VersionByte(n.version)]);
    }

    /** The notes of a section, in position order. */
    method HeldNotes(m: map<nat, HeldNote>)
      modifies this
      ensures bytes == old(bytes) + NotesBytes(m)
    {
      ghost var o := bytes;
      var all := Entries(Ascending(m.Keys), m);
      U32(|all|);
      var i := 0;
      while i < |all|
        invariant 0 <= i <= |all| && bytes == o + Le(|all|, 4) + Cat(EntryBytes, all[..i])
      {
        Held(all[i].1);
        WroteOne(EntryBytes, o + Le(|all|, 4), all, i);
        i := i + 1;
      }
      CountedWritten(EntryBytes, o, all);
    }

    method Spent(s: set<nat>)
      modifies this
      ensures bytes == old(bytes) + SpentBytes(s)
    {
      ghost var o := bytes;
      var all := Ascending(s);
      U32(|all|);
      var i := 0;
      while i < |all|
        invariant 0 <= i <= |all| && bytes == o + Le(|all|, 4) + Cat(HashBytes, all[..i])
      {
        Bytes(HashBytes(all[i]));
        WroteOne(HashBytes, o + Le(|all|, 4), all, i);
        i := i + 1;
      }
      CountedWritten(HashBytes, o, all);
    }
  }

  /** `NoteStore::encode`. */
  method Encode(s: Saved) returns (o: seq<byte>)
    ensures o == EncodeSpec(s)
  {
    var w := new Writer();
    w.Bytes(MAGIC);
    w.U64(s.appended);
    w.OptU64(s.syncedTo);
    w.Tree(s.tree);
    w.HeldNotes(s.held);
    Join5([], MAGIC, U64Bytes(s.appended), OptBytes(s.syncedTo), PartsBytes(s.tree), NotesBytes(s.held));
    assert w.bytes == CoreBytes(s);
    w.HeldNotes(s.inFlight);
    w.Spent(s.spent);
    Assoc(CoreBytes(s), NotesBytes(s.inFlight), SpentBytes(s.spent));
    o := w.bytes;
  }

  // ------------------------------------------------------------ reading

  /** What was read is what the parser gives, with the cursor where it leaves off. */
  ghost predicate Got<T>(parsed: Parsed<T>, r: Option<T>, rest: seq<byte>) {
    match parsed
    case None => r == None
    case Some((v, end)) => r == Some(v) && rest == end
  }

  lemma ThenIs<A, B>(p: Parser<A>, q: Parser<B>, b: seq<byte>)
    ensures p(b).None? ==> Then(p, q)(b) == None
    ensures p(b).Some? ==>
              Then(p, q)(b) == match q(p(b).value.1)
                               case None => None
                               case Some((y, rest)) => Some(((p(b).value.0, y), rest))
  {
  }

  /** A reading loop part-way: `xs` read, `left` of `n` to go. */
  ghost predicate SoFar<T>(p: Parser<T>, start: seq<byte>, n: nat, xs: seq<T>, rest: seq<byte>, left: nat) {
    Many(p, start, n) == Prepend(xs, Many(p, rest, left))
  }

  lemma CountedStarts<T>(p: Parser<T>, b: seq<byte>, n: nat, rest: seq<byte>)
    requires ParseU32(b) == Some((n, rest))
    ensures Counted(p)(b) == Many(p, rest, n) && SoFar(p, rest, n, [], rest, n)
  {
    PrependNothing(Many(p, rest, n));
  }

  lemma OneRead<T>(
      p: Parser<T>, start: seq<byte>, n: nat, xs: seq<T>, rest: seq<byte>, left: nat, x: T, after: seq<byte>,
      fewer: nat)
    requires left == fewer + 1 && SoFar(p, start, n, xs, rest, left) && p(rest) == Some((x, after))
    ensures SoFar(p, start, n, xs + [x], after, fewer)
  {
    ManyStep(p, xs, rest, left);
  }

  lemma NoneRead<T>(p: Parser<T>, start: seq<byte>, n: nat, xs: seq<T>, rest: seq<byte>, left: nat)
    requires left > 0 && SoFar(p, start, n, xs, rest, left) && p(rest) == None
    ensures Many(p, start, n) == None
  {
    ManyStep(p, xs, rest, left);
  }

  lemma AllRead<T>(p: Parser<T>, start: seq<byte>, n: nat, xs: seq<T>, rest: seq<byte>)
    requires SoFar(p, start, n, xs, rest, 0)
    ensures Many(p, start, n) == Some((xs, rest))
  {
    PrependEnd(p, xs, rest);
  }

  lemma SetOfNone()
    ensures SetOf([]) == Some({})
  {
    assert (set y: nat | y in []) == {};
  }

  lemma SetOfMore(xs: seq<nat>, x: nat, s: set<nat>)
    requires SetOf(xs) == Some(s)
    ensures SetOf(xs + [x]) == Some(s + {x})
  {
    assert (set y: nat | y in xs + [x]) == (set y: nat | y in xs) + {x};
  }

  lemma MapOfMore<V>(es: seq<(nat, V)>, e: (nat, V))
    ensures MapOf(es + [e]) == MapOf(es)[e.0 := e.1]
  {
    assert (es + [e])[..|es|] == es;
  }

  lemma SetRead(p: Parser<nat>, b: seq<byte>, n: nat, start: seq<byte>, xs: seq<nat>, s: set<nat>, rest: seq<byte>)
    requires Counted(p)(b) == Many(p, start, n) && SoFar(p, start, n, xs, rest, 0) && SetOf(xs) == Some(s)
    ensures SetParser(p)(b) == Some((s, rest))
  {
    AllRead(p, start, n, xs, rest);
  }

  lemma MapRead<V>(p: Parser<(nat, V)>, b: seq<byte>, n: nat, start: seq<byte>, es: seq<(nat, V)>, rest: seq<byte>)
    requires Counted(p)(b) == Many(p, start, n) && SoFar(p, start, n, es, rest, 0)
    ensures MapParser(p)(b) == Some((MapOf(es), rest))
  {
    AllRead(p, start, n, es, rest);
  }

  lemma NoSet(p: Parser<nat>, b: seq<byte>)
    ensures Counted(p)(b) == None ==> SetParser(p)(b) == None
  {
  }

  lemma NoMap<V>(p: Parser<(nat, V)>, b: seq<byte>)
    ensures Counted(p)(b) == None ==> MapParser(p)(b) == None
  {
  }

  class Reader {
    const buf: seq<byte>
    var pos: nat

    constructor (buf: seq<byte>)
      ensures Valid() && Rest() == buf && this.buf == buf
    {
      this.buf := buf;
      pos := 0;
      new;
      assert buf[0..] == buf;
    }

    ghost predicate Valid()
      reads this
    {
      pos <= |buf|
    }

    /** What is still unread. */
    ghost function Rest(): seq<byte>
      requires Valid()
      reads this
    {
      buf[pos..]
    }

    method Take(n: nat) returns (r: Option<seq<byte>>)
      requires Valid()
      modifies this
      ensures Valid() && Got(Wire.Take(old(Rest()), n), r, Rest())
    {
      r := Get(buf, pos, n);
      if r.Some? {
        pos := pos + n;
      }
    }

    method U8() returns (r: Option<nat>)
      requires Valid()
      modifies this
      ensures Valid() && Got(ReadU8(old(Rest())), r, Rest())
    {
      var x := Take(1);
      r := if x.Some? then Some(x.value[0]) else None;
    }

    method U32() returns (r: Option<nat>)
      requires Valid()
      modifies this
      ensures Valid() && Got(ReadU32(old(Rest())), r, Rest())
    {
      var x := Take(4);
      r := if x.Some? then Some(FromLe(x.value)) else None;
    }

    method U64() returns (r: Option<nat>)
      requires Valid()
      modifies this
      ensures Valid() && Got(ReadU64(old(Rest())), r, Rest())
      ensures r.Some? ==> r.value <= U64_MAX && ParseU64(old(Rest())) == Some((r.value, Rest()))
    {
      var x := Take(8);
      r := if x.Some? then Some(FromLe(x.value)) else None;
    }

    method OptU64() returns (r: Option<Option<nat>>)
      requires Valid()
      modifies this
      ensures Valid() && Got(ReadOpt(old(Rest())), r, Rest())
    {
      var flag := U8();
      if flag.None? { return None; }
      var n := U64();
      if n.None? { return None; }
      r := Some(if flag.value != 0 then Some(n.value) else None);
    }

    method Hash(c: Checks) returns (r: Option<nat>)
      requires Valid()
      modifies this
      ensures Valid() && Got(ReadHash(c)(old(Rest())), r, Rest())
    {
      var x := Take(32);
      if x.None? || !c.hashOk(FromBe(x.value)) { return None; }
      r := Some(FromBe(x.value));
    }

    method Arr32() returns (r: Option<Prelude.Hash>)
      requires Valid()
      modifies this
      ensures Valid() && Got(ReadBytes32(old(Rest())), r, Rest())
    {
      var x := Take(32);
      r := if x.Some? then Some(HashOf(x.value)) else None;
    }

    method Address() returns (r: Option<nat>)
      requires Valid()
      modifies this
      ensures Valid() && Got(ReadAddress(old(Rest())), r, Rest())
    {
      var level := U8();
      if level.None? { return None; }
      var index := U64();
      if index.None? { return None; }
      r := Some(level.value * LEVEL + index.value);
    }

    method Hashes(c: Checks) returns (r: Option<seq<nat>>)
      requires Valid()
      modifies this
      ensures Valid() && Got(Counted(ReadHash(c))(old(Rest())), r, Rest())
    {
      ghost var p, b := ReadHash(c), Rest();
      var n := U32();
      if n.None? { return None; }
      ghost var start := Rest();
      CountedStarts(p, b, n.value, start);
      var xs: seq<nat> := [];
      var left := n.value;
      while left > 0
        invariant Valid() && SoFar(p, start, n.value, xs, Rest(), left)
      {
        ghost var rest := Rest();
        var x := Hash(c);
        if x.None? {
          NoneRead(p, start, n.value, xs, rest, left);
          return None;
        }
        var fewer := left - 1;
        OneRead(p, start, n.value, xs, rest, left, x.value, Rest(), fewer);
        xs, left := xs + [x.value], fewer;
      }
      AllRead(p, start, n.value, xs, Rest());
      r := Some(xs);
    }

    /** A frontier's leaf and ommers. */
    method LeafAndOmmers(c: Checks) returns (r: Option<(nat, seq<nat>)>)
      requires Valid()
      modifies this
      ensures Valid() && Got(Then(ReadHash(c), Counted(ReadHash(c)))(old(Rest())), r, Rest())
    {
      ThenIs(ReadHash(c), Counted(ReadHash(c)), Rest());
      var x := Hash(c);
      if x.None? { return None; }
      var y := Hashes(c);
      if y.None? { return None; }
      r := Some((x.value, y.value));
    }

    /** The fields of a frontier. */
    method FrontierFields(c: Checks) returns (r: Option<(nat, (nat, seq<nat>))>)
      requires Valid()
      modifies this
      ensures Valid() && Got(Then(ReadU64, Then(ReadHash(c), Counted(ReadHash(c))))(old(Rest())), r, Rest())
    {
      ThenIs(ReadU64, Then(ReadHash(c), Counted(ReadHash(c))), Rest());
      var x := U64();
      if x.None? { return None; }
      var y := LeafAndOmmers(c);
      if y.None? { return None; }
      r := Some((x.value, y.value));
    }

    method Frontier(c: Checks) returns (r: Option<Disk.Frontier>)
      requires Valid()
      modifies this
      ensures Valid() && Got(ReadFrontier(c)(old(Rest())), r, Rest())
    {
      var fields := FrontierFields(c);
      if fields.None? { return None; }
      var (position, (leaf, ommers)) := fields.value;
      var f := Disk.Frontier(position, leaf, ommers);
      r := if c.frontierOk(f) then Some(f) else None;
    }

    /** The positions a bridge tracks. */
    method Tracking() returns (r: Option<set<nat>>)
      requires Valid()
      modifies this
      ensures Valid() && Got(SetParser(ReadAddress)(old(Rest())), r, Rest())
    {
      ghost var p, b := ReadAddress, Rest();
      NoSet(p, b);
      var n := U32();
      if n.None? { return None; }
      ghost var start, xs: seq<nat> := Rest(), [];
      CountedStarts(p, b, n.value, start);
      SetOfNone();
      var s: set<nat> := {};
      var left := n.value;
      while left > 0
        invariant Valid() && SetOf(xs) == Some(s) && SoFar(p, start, n.value, xs, Rest(), left)
      {
        ghost var rest := Rest();
        var x := Address();
        if x.None? {
          NoneRead(p, start, n.value, xs, rest, left);
          return None;
        }
        var fewer := left - 1;
        OneRead(p, start, n.value, xs, rest, left, x.value, Rest(), fewer);
        SetOfMore(xs, x.value, s);
        xs := xs + [x.value];
        s, left := s + {x.value}, fewer;
      }
      SetRead(p, b, n.value, start, xs, s, Rest());
      r := Some(s);
    }

    /** One entry of a bridge's ommers. */
    method Ommer(c: Checks) returns (r: Option<(nat, nat)>)
      requires Valid()
      modifies this
      ensures Valid() && Got(Then(ReadAddress, ReadHash(c))(old(Rest())), r, Rest())
    {
      ThenIs(ReadAddress, ReadHash(c), Rest());
      var x := Address();
      if x.None? { return None; }
      var y := Hash(c);
      if y.None? { return None; }
      r := Some((x.value, y.value));
    }

    /** A bridge's ommers, inserted one by one. */
    method Ommers(c: Checks) returns (r: Option<map<nat, nat>>)
      requires Valid()
      modifies this
      ensures Valid() && Got(MapParser(Then(ReadAddress, ReadHash(c)))(old(Rest())), r, Rest())
    {
      ghost var p, b := Then(ReadAddress, ReadHash(c)), Rest();
      NoMap(p, b);
      var n := U32();
      if n.None? { return None; }
      ghost var start, es: seq<(nat, nat)> := Rest(), [];
      CountedStarts(p, b, n.value, start);
      var m: map<nat, nat> := map[];
      var left := n.value;
      while left > 0
        invariant Valid() && MapOf(es) == m && SoFar(p, start, n.value, es, Rest(), left)
      {
        ghost var rest := Rest();
        var e := Ommer(c);
        if e.None? {
          NoneRead(p, start, n.value, es, rest, left);
          return None;
        }
        var fewer := left - 1;
        OneRead(p, start, n.value, es, rest, left, e.value, Rest(), fewer);
        MapOfMore(es, e.value);
        es := es + [e.value];
        m, left := m[e.value.0 := e.value.1], fewer;
      }
      MapRead(p, b, n.value, start, es, Rest());
      r := Some(m);
    }

    /** A bridge's ommers and its frontier. */
    method BridgeEnd(c: Checks) returns (r: Option<(map<nat, nat>, Disk.Frontier)>)
      requires Valid()
      modifies this
      ensures Valid() && Got(Then(ReadOmmers(c), ReadFrontier(c))(old(Rest())), r, Rest())
    {
      ThenIs(ReadOmmers(c), ReadFrontier(c), Rest());
      var x := Ommers(c);
      if x.None? { return None; }
      var y := Frontier(c);
      if y.None? { return None; }
      r := Some((x.value, y.value));
    }

    /** A bridge but for its prior position. */
    method BridgeRest(c: Checks) returns (r: Option<(set<nat>, (map<nat, nat>, Disk.Frontier))>)
      requires Valid()
      modifies this
      ensures Valid() && Got(Then(SetParser(ReadAddress), Then(ReadOmmers(c), ReadFrontier(c)))(old(Rest())), r, Rest())
    {
      ThenIs(SetParser(ReadAddress), Then(ReadOmmers(c), ReadFrontier(c)), Rest());
      var x := Tracking();
      if x.None? { return None; }
      var y := BridgeEnd(c);
      if y.None? { return None; }
      r := Some((x.value, y.value));
    }

    /** The fields of a bridge. */
    method BridgeFields(c: Checks) returns (r: Option<(Option<nat>, (set<nat>, (map<nat, nat>, Disk.Frontier)))>)
      requires Valid()
      modifies this
      ensures Valid() && Got(ReadBridgeFields(c)(old(Rest())), r, Rest())
    {
      ThenIs(ReadOpt, Then(SetParser(ReadAddress), Then(ReadOmmers(c), ReadFrontier(c))), Rest());
      var x := OptU64();
      if x.None? { return None; }
      var y := BridgeRest(c);
      if y.None? { return None; }
      r := Some((x.value, y.value));
    }

    method Bridge(c: Checks) returns (r: Option<Disk.Bridge>)
      requires Valid()
      modifies this
      ensures Valid() && Got(ReadBridge(c)(old(Rest())), r, Rest())
    {
      var fields := BridgeFields(c);
      if fields.None? { return None; }
      var (prior, (tracking, (ommers, frontier))) := fields.value;
      r := Some(Disk.Bridge(prior, tracking, ommers, frontier));
    }

    /** The finished bridges. */
    method Bridges(c: Checks) returns (r: Option<seq<Disk.Bridge>>)
      requires Valid()
      modifies this
      ensures Valid() && Got(Counted(ReadBridge(c))(old(Rest())), r, Rest())
    {
      ghost var p, b := ReadBridge(c), Rest();
      var n := U32();
      if n.None? { return None; }
      ghost var start := Rest();
      CountedStarts(p, b, n.value, start);
      var xs: seq<Disk.Bridge> := [];
      var left := n.value;
      while left > 0
        invariant Valid() && SoFar(p, start, n.value, xs, Rest(), left)
      {
        ghost var rest := Rest();
        var x := Bridge(c);
        if x.None? {
          NoneRead(p, start, n.value, xs, rest, left);
          return None;
        }
        var fewer := left - 1;
        OneRead(p, start, n.value, xs, rest, left, x.value, Rest(), fewer);
        xs, left := xs + [x.value], fewer;
      }
      AllRead(p, start, n.value, xs, Rest());
      r := Some(xs);
    }

    method Current(c: Checks) returns (r: Option<Option<Disk.Bridge>>)
      requires Valid()
      modifies this
      ensures Valid() && Got(ReadCurrent(c)(old(Rest())), r, Rest())
    {
      var flag := U8();
      if flag.None? { return None; }
      if flag.value == 0 { return Some(None); }
      var x := Bridge(c);
      if x.None? { return None; }
      r := Some(x);
    }

    /** One saved mark. */
    method SavedMark() returns (r: Option<(nat, nat)>)
      requires Valid()
      modifies this
      ensures Valid() && Got(Then(ReadU64, ReadU64)(old(Rest())), r, Rest())
    {
      ThenIs(ReadU64, ReadU64, Rest());
      var x := U64();
      if x.None? { return None; }
      var y := U64();
      if y.None? { return None; }
      r := Some((x.value, y.value));
    }

    /** The marks saved, inserted one by one. */
    method SavedMarks() returns (r: Option<map<nat, nat>>)
      requires Valid()
      modifies this
      ensures Valid() && Got(MapParser(Then(ReadU64, ReadU64))(old(Rest())), r, Rest())
    {
      ghost var p, b := Then(ReadU64, ReadU64), Rest();
      NoMap(p, b);
      var n := U32();
      if n.None? { return None; }
      ghost var start, es: seq<(nat, nat)> := Rest(), [];
      CountedStarts(p, b, n.value, start);
      var m: map<nat, nat> := map[];
      var left := n.value;
      while left > 0
        invariant Valid() && MapOf(es) == m && SoFar(p, start, n.value, es, Rest(), left)
      {
        ghost var rest := Rest();
        var e := SavedMark();
        if e.None? {
          NoneRead(p, start, n.value, es, rest, left);
          return None;
        }
        var fewer := left - 1;
        OneRead(p, start, n.value, es, rest, left, e.value, Rest(), fewer);
        MapOfMore(es, e.value);
        es := es + [e.value];
        m, left := m[e.value.0 := e.value.1], fewer;
      }
      MapRead(p, b, n.value, start, es, Rest());
      r := Some(m);
    }

    /** The positions of a checkpoint. */
    method Positions() returns (r: Option<set<nat>>)
      requires Valid()
      modifies this
      ensures Valid() && Got(SetParser(ReadU64)(old(Rest())), r, Rest())
    {
      ghost var p, b := ReadU64, Rest();
      NoSet(p, b);
      var n := U32();
      if n.None? { return None; }
      ghost var start, xs: seq<nat> := Rest(), [];
      CountedStarts(p, b, n.value, start);
      SetOfNone();
      var s: set<nat> := {};
      var left := n.value;
      while left > 0
        invariant Valid() && SetOf(xs) == Some(s) && SoFar(p, start, n.value, xs, Rest(), left)
      {
        ghost var rest := Rest();
        var x := U64();
        if x.None? {
          NoneRead(p, start, n.value, xs, rest, left);
          return None;
        }
        var fewer := left - 1;
        OneRead(p, start, n.value, xs, rest, left, x.value, Rest(), fewer);
        SetOfMore(xs, x.value, s);
        xs := xs + [x.value];
        s, left := s + {x.value}, fewer;
      }
      SetRead(p, b, n.value, start, xs, s, Rest());
      r := Some(s);
    }

    /** The two sets of a checkpoint. */
    method MarkedForgotten() returns (r: Option<(set<nat>, set<nat>)>)
      requires Valid()
      modifies this
      ensures Valid() && Got(Then(SetParser(ReadU64), SetParser(ReadU64))(old(Rest())), r, Rest())
    {
      ThenIs(SetParser(ReadU64), SetParser(ReadU64), Rest());
      var x := Positions();
      if x.None? { return None; }
      var y := Positions();
      if y.None? { return None; }
      r := Some((x.value, y.value));
    }

    /** A checkpoint but for its id. */
    method CheckpointRest() returns (r: Option<(nat, (set<nat>, set<nat>))>)
      requires Valid()
      modifies this
      ensures Valid() && Got(Then(ReadU64, Then(SetParser(ReadU64), SetParser(ReadU64)))(old(Rest())), r, Rest())
    {
      ThenIs(ReadU64, Then(SetParser(ReadU64), SetParser(ReadU64)), Rest());
      var x := U64();
      if x.None? { return None; }
      var y := MarkedForgotten();
      if y.None? { return None; }
      r := Some((x.value, y.value));
    }

    /** The fields of a checkpoint. */
    method CheckpointFields() returns (r: Option<(nat, (nat, (set<nat>, set<nat>)))>)
      requires Valid()
      modifies this
      ensures Valid() && Got(ReadMarkFields()(old(Rest())), r, Rest())
    {
      ThenIs(ReadU32, Then(ReadU64, Then(SetParser(ReadU64), SetParser(ReadU64))), Rest());
      var x := U32();
      if x.None? { return None; }
      var y := CheckpointRest();
      if y.None? { return None; }
      r := Some((x.value, y.value));
    }

    method Checkpoint() returns (r: Option<Mark>)
      requires Valid()
      modifies this
      ensures Valid() && Got(ReadMark()(old(Rest())), r, Rest())
    {
      var fields := CheckpointFields();
      if fields.None? { return None; }
      var (id, (bridges, (marked, forgotten))) := fields.value;
      r := Some(Mark(id, bridges, marked, forgotten));
    }

    /** The checkpoints. */
    method Checkpoints() returns (r: Option<seq<Mark>>)
      requires Valid()
      modifies this
      ensures Valid() && Got(Counted(ReadMark())(old(Rest())), r, Rest())
    {
      ghost var p, b := ReadMark(), Rest();
      var n := U32();
      if n.None? { return None; }
      ghost var start := Rest();
      CountedStarts(p, b, n.value, start);
      var xs: seq<Mark> := [];
      var left := n.value;
      while left > 0
        invariant Valid() && SoFar(p, start, n.value, xs, Rest(), left)
      {
        ghost var rest := Rest();
        var x := Checkpoint();
        if x.None? {
          NoneRead(p, start, n.value, xs, rest, left);
          return None;
        }
        var fewer := left - 1;
        OneRead(p, start, n.value, xs, rest, left, x.value, Rest(), fewer);
        xs, left := xs + [x.value], fewer;
      }
      AllRead(p, start, n.value, xs, Rest());
      r := Some(xs);
    }

    /** The saved marks and the checkpoints. */
    method MarksAndCheckpoints() returns (r: Option<(map<nat, nat>, seq<Mark>)>)
      requires Valid()
      modifies this
      ensures Valid() && Got(Then(MapParser(Then(ReadU64, ReadU64)), Counted(ReadMark()))(old(Rest())), r, Rest())
    {
      ThenIs(MapParser(Then(ReadU64, ReadU64)), Counted(ReadMark()), Rest());
      var x := SavedMarks();
      if x.None? { return None; }
      var y := Checkpoints();
      if y.None? { return None; }
      r := Some((x.value, y.value));
    }

    /** From the bridge under construction on. */
    method TreeEnd(c: Checks) returns (r: Option<(Option<Disk.Bridge>, (map<nat, nat>, seq<Mark>))>)
      requires Valid()
      modifies this
      ensures var end := Then(MapParser(Then(ReadU64, ReadU64)), Counted(ReadMark()));
              Valid() && Got(Then(ReadCurrent(c), end)(old(Rest())), r, Rest())
    {
      ThenIs(ReadCurrent(c), Then(MapParser(Then(ReadU64, ReadU64)), Counted(ReadMark())), Rest());
      var x := Current(c);
      if x.None? { return None; }
      var y := MarksAndCheckpoints();
      if y.None? { return None; }
      r := Some((x.value, y.value));
    }

    /** The tree but for its limit. */
    method TreeRest(c: Checks)
      returns (r: Option<(seq<Disk.Bridge>, (Option<Disk.Bridge>, (map<nat, nat>, seq<Mark>)))>)
      requires Valid()
      modifies this
      ensures var end := Then(ReadCurrent(c), Then(MapParser(Then(ReadU64, ReadU64)), Counted(ReadMark())));
              Valid() && Got(Then(Counted(ReadBridge(c)), end)(old(Rest())), r, Rest())
    {
      ghost var end := Then(ReadCurrent(c), Then(MapParser(Then(ReadU64, ReadU64)), Counted(ReadMark())));
      ThenIs(Counted(ReadBridge(c)), end, Rest());
      var x := Bridges(c);
      if x.None? { return None; }
      var y := TreeEnd(c);
      if y.None? { return None; }
      r := Some((x.value, y.value));
    }

    /** The fields of the tree. */
    method TreeFields(c: Checks) returns (r: Option<PartsFields>)
      requires Valid()
      modifies this
      ensures Valid() && Got(ReadPartsFields(c)(old(Rest())), r, Rest())
    {
      ghost var end := Then(ReadCurrent(c), Then(MapParser(Then(ReadU64, ReadU64)), Counted(ReadMark())));
      ThenIs(ReadU32, Then(Counted(ReadBridge(c)), end), Rest());
      var most := U32();
      if most.None? { return None; }
      var more := TreeRest(c);
      if more.None? { return None; }
      r := Some((most.value, more.value));
    }

    method Tree(c: Checks) returns (r: Option<Parts>)
      requires Valid()
      modifies this
      ensures Valid() && Got(ReadParts(c)(old(Rest())), r, Rest())
    {
      var fields := TreeFields(c);
      if fields.None? { return None; }
      var (most, (prior, (current, (saved, checkpoints)))) := fields.value;
      var t := Parts(most, prior, current, saved, checkpoints);
      r := if c.treeOk(t) then Some(t) else None;
    }

    method Raw(w: nat) returns (r: Option<nat>)
      requires Valid()
      modifies this
      ensures Valid() && Got(ReadRaw(w)(old(Rest())), r, Rest())
    {
      var x := Take(w);
      r := if x.Some? then Some(FromBe(x.value)) else None;
    }

    /** Where a note stands. */
    method Place() returns (r: Option<(nat, (nat, Prelude.Hash))>)
      requires Valid()
      modifies this
      ensures Valid() && Got(ReadPlace()(old(Rest())), r, Rest())
    {
      ThenIs(ReadU64, Then(ReadU64, ReadBytes32), Rest());
      var position := U64();
      if position.None? { return None; }
      ThenIs(ReadU64, ReadBytes32, Rest());
      var height := U64();
      if height.None? { return None; }
      var txid := Arr32();
      if txid.None? { return None; }
      r := Some((position.value, (height.value, txid.value)));
    }

    method Fields() returns (r: Option<NoteFields>)
      requires Valid()
      modifies this
      ensures Valid() && Got(ReadNoteFields()(old(Rest())), r, Rest())
    {
      ThenIs(ReadRaw(43), Then(ParseU64, Then(ReadBytes32, Then(ReadBytes32, ReadU8))), Rest());
      var recipient := Raw(43);
      if recipient.None? { return None; }
      ThenIs(ParseU64, Then(ReadBytes32, Then(ReadBytes32, ReadU8)), Rest());
      var value := U64();
      if value.None? { return None; }
      ThenIs(ReadBytes32, Then(ReadBytes32, ReadU8), Rest());
      var rho := Arr32();
      if rho.None? { return None; }
      ThenIs(ReadBytes32, ReadU8, Rest());
      var rseed := Arr32();
      if rseed.None? { return None; }
      var version := U8();
      if version.None? { return None; }
      r := Some((recipient.value, (value.value, (rho.value, (rseed.value, version.value)))));
    }

    method Held(c: Checks) returns (r: Option<(nat, HeldNote)>)
      requires Valid()
      modifies this
      ensures Valid() && Got(ReadHeld(c)(old(Rest())), r, Rest())
    {
      ThenIs(ReadPlace(), ReadNote(c), Rest());
      var place := Place();
      if place.None? { return None; }
      var fields := Fields();
      if fields.None? { return None; }
      var note := BuildNote(fields.value, c);
      if note.None? { return None; }
      var (position, (height, txid)) := place.value;
      r := Some((position, HeldNote(note.value, position, height, txid)));
    }

    /** The notes of a section, inserted one by one under their positions. */
    method HeldNotes(c: Checks) returns (r: Option<map<nat, HeldNote>>)
      requires Valid()
      modifies this
      ensures Valid() && Got(MapParser(ReadHeld(c))(old(Rest())), r, Rest())
    {
      ghost var p, b := ReadHeld(c), Rest();
      NoMap(p, b);
      var n := U32();
      if n.None? { return None; }
      ghost var start, es: seq<(nat, HeldNote)> := Rest(), [];
      CountedStarts(p, b, n.value, start);
      var m: map<nat, HeldNote> := map[];
      var left := n.value;
      while left > 0
        invariant Valid() && MapOf(es) == m && SoFar(p, start, n.value, es, Rest(), left)
      {
        ghost var rest := Rest();
        var e := Held(c);
        if e.None? {
          NoneRead(p, start, n.value, es, rest, left);
          return None;
        }
        var fewer := left - 1;
        OneRead(p, start, n.value, es, rest, left, e.value, Rest(), fewer);
        MapOfMore(es, e.value);
        es := es + [e.value];
        m, left := m[e.value.0 := e.value.1], fewer;
      }
      MapRead(p, b, n.value, start, es, Rest());
      r := Some(m);
    }

    /** The spent nullifiers. */
    method Spent() returns (r: Option<set<nat>>)
      requires Valid()
      modifies this
      ensures Valid() && Got(SetParser(ReadRaw(32))(old(Rest())), r, Rest())
    {
      ghost var p, b := ReadRaw(32), Rest();
      NoSet(p, b);
      var n := U32();
      if n.None? { return None; }
      ghost var start, xs: seq<nat> := Rest(), [];
      CountedStarts(p, b, n.value, start);
      SetOfNone();
      var s: set<nat> := {};
      var left := n.value;
      while left > 0
        invariant Valid() && SetOf(xs) == Some(s) && SoFar(p, start, n.value, xs, Rest(), left)
      {
        ghost var rest := Rest();
        var x := Raw(32);
        if x.None? {
          NoneRead(p, start, n.value, xs, rest, left);
          return None;
        }
        var fewer := left - 1;
        OneRead(p, start, n.value, xs, rest, left, x.value, Rest(), fewer);
        SetOfMore(xs, x.value, s);
        xs := xs + [x.value];
        s, left := s + {x.value}, fewer;
      }
      SetRead(p, b, n.value, start, xs, s, Rest());
      r := Some(s);
    }

    /** What every file has, after the magic. */
    method Core(c: Checks) returns (r: Option<Disk.Core>)
      requires Valid()
      modifies this
      ensures Valid() && Got(ReadFields(c)(old(Rest())), r, Rest())
    {
      ThenIs(ReadU64, Then(ReadOpt, Then(ReadParts(c), ReadNotes(c))), Rest());
      var appended := U64();
      if appended.None? { return None; }
      ThenIs(ReadOpt, Then(ReadParts(c), ReadNotes(c)), Rest());
      var syncedTo := OptU64();
      if syncedTo.None? { return None; }
      ThenIs(ReadParts(c), ReadNotes(c), Rest());
      var tree := Tree(c);
      if tree.None? { return None; }
      var held := HeldNotes(c);
      if held.None? { return None; }
      r := Some((appended.value, (syncedTo.value, (tree.value, held.value))));
    }
  }

  /** `NoteStore::decode`. */
  method Decode(buf: seq<byte>, c: Checks) returns (r: Option<Saved>)
    ensures r == DecodeSpec(buf, c)
  {
    var reader := new Reader(buf);
    ThenIs(ReadMagic, ReadFields(c), buf);
    var magic := reader.Take(8);
    if magic.None? || magic.value != MAGIC { return None; }
    var core := reader.Core(c);
    if core.None? { return None; }
    var tail := DecodeTail(reader, c);
    if tail.None? { return None; }
    var (appended, (syncedTo, (tree, held))) := core.value;
    r := Some(Saved(tree, held, tail.value.0, tail.value.1, appended, syncedTo));
  }

  /** The sections added since, each read if anything is left. */
  method DecodeTail(reader: Reader, c: Checks) returns (r: Option<(map<nat, HeldNote>, set<nat>)>)
    requires reader.Valid()
    modifies reader
    ensures r == ReadTail(old(reader.Rest()), c)
  {
    var inFlight: map<nat, HeldNote> := map[];
    var spent: set<nat> := {};
    if reader.pos != |reader.buf| {
      var notes := reader.HeldNotes(c);
      if notes.None? { return None; }
      inFlight := notes.value;
    }
    if reader.pos != |reader.buf| {
      var shown := reader.Spent();
      if shown.None? { return None; }
      spent := shown.value;
    }
    if reader.pos != |reader.buf| { return None; }
    r := Some((inFlight, spent));
  }
}
