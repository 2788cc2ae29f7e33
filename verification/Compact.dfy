/** Compact blocks and their one binary form (src/compact.rs). */
module Compact {
  import opened Prelude
  import opened Wire

  type Bytes52 = s: seq<byte> | |s| == 52 witness seq(52, _ => 0)

  datatype CompactOutput = CompactOutput(nullifier: Bytes32, cmx: Bytes32, epk: Bytes32, ciphertext: Bytes52)

  datatype CompactTx = CompactTx(index: u32, txid: Bytes32, orchard: seq<CompactOutput>, ironwood: seq<CompactOutput>)

  datatype CompactBlock = CompactBlock(height: u64, hash: Bytes32, txs: seq<CompactTx>)

  const MAGIC: seq<byte> := [0x5A, 0x45, 0x43, 0x43, 0x42, 0x31]  // "ZECCB1"

  // ------------------------------------------------------------ the layout

  function OutputBytes(c: CompactOutput): seq<byte> {
    c.nullifier + (c.cmx + (c.epk + c.ciphertext))
  }

  function ListBytes(l: seq<CompactOutput>): seq<byte> {
    Le(|l|, 4) + Cat(OutputBytes, l)
  }

  function TxBytes(t: CompactTx): seq<byte> {
    Le(t.index, 4) + (t.txid + (ListBytes(t.orchard) + ListBytes(t.ironwood)))
  }

  function BlockBytes(k: CompactBlock): seq<byte> {
    MAGIC + (Le(k.height, 8) + (k.hash + (Le(|k.txs|, 4) + Cat(TxBytes, k.txs))))
  }

  /** The counts the layout stores in 32 bits are the counts there are. */
  predicate TxFits(t: CompactTx) {
    |t.orchard| < 0x1_0000_0000 && |t.ironwood| < 0x1_0000_0000
  }

  predicate Fits(k: CompactBlock) {
    |k.txs| < 0x1_0000_0000 && forall t :: t in k.txs ==> TxFits(t)
  }

  function ParseOutput(b: seq<byte>): Parsed<CompactOutput> {
    match Take(b, 32)
    case None => None
    case Some((nullifier, r0)) =>
      match Take(r0, 32)
      case None => None
      case Some((cmx, r1)) =>
        match Take(r1, 32)
        case None => None
        case Some((epk, r2)) =>
          match Take(r2, 52)
          case None => None
          case Some((ciphertext, r3)) => Some((CompactOutput(nullifier, cmx, epk, ciphertext), r3))
  }

  function ParseList(b: seq<byte>): Parsed<seq<CompactOutput>> {
    match ParseU32(b)
    case None => None
    case Some((m, rest)) => Many(ParseOutput, rest, m)
  }

  function ParseTx(b: seq<byte>): Parsed<CompactTx> {
    match ParseU32(b)
    case None => None
    case Some((index, r0)) =>
      match Take(r0, 32)
      case None => None
      case Some((txid, r1)) =>
        match ParseList(r1)
        case None => None
        case Some((orchard, r2)) =>
          match ParseList(r2)
          case None => None
          case Some((ironwood, r3)) => Some((CompactTx(index, txid, orchard, ironwood), r3))
  }

  function ParseTxs(b: seq<byte>): Parsed<seq<CompactTx>> {
    match ParseU32(b)
    case None => None
    case Some((n, rest)) => Many(ParseTx, rest, n)
  }

  function ParseHeader(b: seq<byte>): Parsed<(u64, Bytes32)> {
    match Take(b, 6)
    case None => None
    case Some((magic, r0)) =>
      if magic != MAGIC then None else
        match ParseU64(r0)
        case None => None
        case Some((height, r1)) =>
          match Take(r1, 32)
          case None => None
          case Some((hash, r2)) => Some(((height, hash), r2))
  }

  function ParseBlock(b: seq<byte>): Option<CompactBlock> {
    match ParseHeader(b)
    case None => None
    case Some(((height, hash), r)) =>
      match ParseTxs(r)
      case None => None
      case Some((txs, rest)) => if rest == [] then Some(CompactBlock(height, hash, txs)) else None
  }

  // ------------------------------------------------------------ where the fields stand

  /** An output is 148 bytes: nullifier, commitment, ephemeral key, ciphertext. */
  lemma OutputLayout(c: CompactOutput)
    ensures var b := OutputBytes(c);
            && |b| == 148 && b[..32] == c.nullifier && b[32..64] == c.cmx && b[64..96] == c.epk
            && b[96..] == c.ciphertext
  {
    var b := OutputBytes(c);
    assert b[32..64] == c.cmx && b[64..96] == c.epk && b[96..] == c.ciphertext;
  }

  /** A transaction: its index, its txid, and the outputs of each pool, counted. */
  lemma TxLayout(t: CompactTx)
    ensures var b := TxBytes(t);
            var orchard := Le(|t.orchard|, 4) + Cat(OutputBytes, t.orchard);
            && |b| >= 44 + |Cat(OutputBytes, t.orchard)|
            && b[..4] == Le(t.index, 4) && b[4..36] == t.txid && b[36..36 + |orchard|] == orchard
            && b[36 + |orchard|..] == Le(|t.ironwood|, 4) + Cat(OutputBytes, t.ironwood)
  {
    var b := TxBytes(t);
    var orchard := ListBytes(t.orchard);
    assert b[..4] == Le(t.index, 4) && b[4..36] == t.txid;
    assert b[36..] == orchard + ListBytes(t.ironwood);
    assert b[36..36 + |orchard|] == b[36..][..|orchard|] && b[36 + |orchard|..] == b[36..][|orchard|..];
  }

  /** A block: its name, its height, its hash and its transactions, counted. */
  lemma BlockLayout(k: CompactBlock)
    ensures var b := BlockBytes(k);
            && |b| >= 50 && b[..6] == [0x5A, 0x45, 0x43, 0x43, 0x42, 0x31]
            && b[6..14] == Le(k.height, 8) && b[14..46] == k.hash && b[46..50] == Le(|k.txs|, 4)
            && b[50..] == Cat(TxBytes, k.txs)
  {
    var b := BlockBytes(k);
    var tail := Le(|k.txs|, 4) + Cat(TxBytes, k.txs);
    assert b[..6] == MAGIC && b[6..14] == Le(k.height, 8) && b[14..46] == k.hash && b[46..] == tail;
    assert b[46..50] == b[46..][..4] && b[50..] == b[46..][4..];
  }

  // ------------------------------------------------------------ written, then read

  lemma OutputForward(c: CompactOutput, rest: seq<byte>)
    ensures ParseOutput(OutputBytes(c) + rest) == Some((c, rest))
  {
    var r2 := c.ciphertext + rest;
    var r1 := c.epk + r2;
    var r0 := c.cmx + r1;
    TakeForward(c.ciphertext, rest);
    TakeForward(c.epk, r2);
    TakeForward(c.cmx, r1);
    TakeForward(c.nullifier, r0);
    assert OutputBytes(c) + rest == c.nullifier + r0;
  }

  lemma ListForward(l: seq<CompactOutput>, rest: seq<byte>)
    requires |l| < 0x1_0000_0000
    ensures ParseList(ListBytes(l) + rest) == Some((l, rest))
  {
    forall c, r | c in l ensures ParseOutput(OutputBytes(c) + r) == Some((c, r)) {
      OutputForward(c, r);
    }
    ManyForward(ParseOutput, OutputBytes, l, rest);
    U32Forward(|l|, Cat(OutputBytes, l) + rest);
    Assoc(Le(|l|, 4), Cat(OutputBytes, l), rest);
  }

  lemma TxForward(t: CompactTx, rest: seq<byte>)
    requires TxFits(t)
    ensures ParseTx(TxBytes(t) + rest) == Some((t, rest))
  {
    var r3 := ListBytes(t.ironwood) + rest;
    var r2 := ListBytes(t.orchard) + r3;
    var r1 := t.txid + r2;
    ListForward(t.ironwood, rest);
    ListForward(t.orchard, r3);
    TakeForward(t.txid, r2);
    U32Forward(t.index, r1);
    TxParts(Le(t.index, 4), t.txid, ListBytes(t.orchard), ListBytes(t.ironwood), rest);
    TxReads(Le(t.index, 4) + r1, t, r1, r2, r3, rest);
  }

  lemma TxReads(b: seq<byte>, t: CompactTx, r1: seq<byte>, r2: seq<byte>, r3: seq<byte>, rest: seq<byte>)
    requires ParseU32(b) == Some((t.index, r1)) && Take(r1, 32) == Some((t.txid, r2))
    requires ParseList(r2) == Some((t.orchard, r3)) && ParseList(r3) == Some((t.ironwood, rest))
    ensures ParseTx(b) == Some((t, rest))
  {
  }

  lemma TxsForward(txs: seq<CompactTx>)
    requires |txs| < 0x1_0000_0000 && forall t :: t in txs ==> TxFits(t)
    ensures ParseTxs(Le(|txs|, 4) + Cat(TxBytes, txs)) == Some((txs, []))
  {
    forall t, r | t in txs ensures ParseTx(TxBytes(t) + r) == Some((t, r)) {
      TxForward(t, r);
    }
    ManyForward(ParseTx, TxBytes, txs, []);
    assert Cat(TxBytes, txs) + [] == Cat(TxBytes, txs);
    U32Forward(|txs|, Cat(TxBytes, txs));
  }

  lemma BlockForward(k: CompactBlock)
    requires Fits(k)
    ensures ParseBlock(BlockBytes(k)) == Some(k)
  {
    var r2 := Le(|k.txs|, 4) + Cat(TxBytes, k.txs);
    TxsForward(k.txs);
    HeaderForward(k.height, k.hash, r2);
  }

  lemma HeaderForward(height: u64, hash: Bytes32, rest: seq<byte>)
    ensures ParseHeader(MAGIC + (Le(height, 8) + (hash + rest))) == Some(((height, hash), rest))
  {
    TakeForward(hash, rest);
    U64Forward(height, hash + rest);
    TakeForward(MAGIC, Le(height, 8) + (hash + rest));
  }

  // ------------------------------------------------------------ read, then written

  lemma OutputBackward(b: seq<byte>)
    ensures ParseOutput(b).Some? ==> b == OutputBytes(ParseOutput(b).value.0) + ParseOutput(b).value.1
  {
    if ParseOutput(b).Some? {
      var (c, rest) := ParseOutput(b).value;
      assert b == c.nullifier + (c.cmx + (c.epk + (c.ciphertext + rest)));
    }
  }

  lemma ListBackward(b: seq<byte>)
    ensures ParseList(b).Some? ==> var (l, rest) := ParseList(b).value;
              |l| < 0x1_0000_0000 && b == ListBytes(l) + rest
  {
    if ParseList(b).Some? {
      var (m, r) := ParseU32(b).value;
      forall c | ParseOutput(c).Some? ensures c == OutputBytes(ParseOutput(c).value.0) + ParseOutput(c).value.1 {
        OutputBackward(c);
      }
      ManyBackward(ParseOutput, OutputBytes, r, m);
    }
  }

  lemma TxBackward(b: seq<byte>)
    ensures ParseTx(b).Some? ==> var (t, rest) := ParseTx(b).value; TxFits(t) && b == TxBytes(t) + rest
  {
    if ParseTx(b).Some? {
      var (index, r0) := ParseU32(b).value;
      var (txid, r1) := Take(r0, 32).value;
      ListBackward(r1);
      var (orchard, r2) := ParseList(r1).value;
      ListBackward(r2);
      var (ironwood, r3) := ParseList(r2).value;
      TxParts(Le(index, 4), txid, ListBytes(orchard), ListBytes(ironwood), r3);
    }
  }

  lemma TxParts(a: seq<byte>, b: seq<byte>, c: seq<byte>, d: seq<byte>, rest: seq<byte>)
    ensures a + (b + (c + (d + rest))) == (a + (b + (c + d))) + rest
  {
    Assoc(c, d, rest);
    Assoc(b, c + d, rest);
    Assoc(a, b + (c + d), rest);
  }

  lemma TxsBackward(b: seq<byte>)
    ensures ParseTxs(b).Some? ==> var (txs, rest) := ParseTxs(b).value;
              && |txs| < 0x1_0000_0000 && (forall t :: t in txs ==> TxFits(t))
              && b == Le(|txs|, 4) + (Cat(TxBytes, txs) + rest)
  {
    if ParseTxs(b).Some? {
      var (n, r) := ParseU32(b).value;
      forall c | ParseTx(c).Some?
        ensures TxFits(ParseTx(c).value.0) && c == TxBytes(ParseTx(c).value.0) + ParseTx(c).value.1
      {
        TxBackward(c);
      }
      ManyBackward(ParseTx, TxBytes, r, n);
      ManyAll(ParseTx, r, n, TxFits);
    }
  }

  lemma BlockBackward(b: seq<byte>)
    ensures ParseBlock(b).Some? ==> Fits(ParseBlock(b).value) && b == BlockBytes(ParseBlock(b).value)
  {
    if ParseBlock(b).Some? {
      var ((height, hash), r) := ParseHeader(b).value;
      assert b == MAGIC + (Le(height, 8) + (hash + r));
      TxsBackward(r);
      var txs := ParseTxs(r).value.0;
      assert Cat(TxBytes, txs) + [] == Cat(TxBytes, txs);
    }
  }

  /** The encoding is a bijection between the blocks whose counts fit and the
      byte strings `decode` accepts; a block with a count that does not fit is
      never read back as itself. */
  lemma EncodingIsABijection(k: CompactBlock, b: seq<byte>)
    ensures ParseBlock(BlockBytes(k)) == Some(k) <==> Fits(k)
    ensures ParseBlock(b) == Some(k) <==> Fits(k) && b == BlockBytes(k)
  {
    if Fits(k) {
      BlockForward(k);
    }
    BlockBackward(BlockBytes(k));
    BlockBackward(b);
  }

  // ------------------------------------------------------------ the loops

  /** `CompactBlock::encode`. */
  method Encode(k: CompactBlock) returns (o: seq<byte>)
    ensures o == BlockBytes(k)
    ensures ParseBlock(o) == Some(k) <==> Fits(k)
  {
    o := MAGIC;
    o := o + Le(k.height, 8);
    o := o + k.hash;
    o := WriteTxs(o, k.txs);
    Assoc3(MAGIC, Le(k.height, 8), k.hash, Le(|k.txs|, 4) + Cat(TxBytes, k.txs));
    EncodingIsABijection(k, o);
  }

  method WriteTxs(o0: seq<byte>, txs: seq<CompactTx>) returns (o: seq<byte>)
    ensures o == o0 + (Le(|txs|, 4) + Cat(TxBytes, txs))
  {
    o := o0 + Le(|txs|, 4);
    ghost var head := o;
    var i := 0;
    while i < |txs|
      invariant 0 <= i <= |txs|
      invariant o == head + Cat(TxBytes, txs[..i])
    {
      o := WriteTx(o, txs[i]);
      WroteOne(TxBytes, head, txs, i);
      i := i + 1;
    }
    assert txs[..i] == txs;
    Assoc(o0, Le(|txs|, 4), Cat(TxBytes, txs));
  }

  /** One transaction: its index, its txid and its two lists. */
  method WriteTx(o0: seq<byte>, t: CompactTx) returns (o: seq<byte>)
    ensures o == o0 + TxBytes(t)
  {
    o := o0 + Le(t.index, 4);
    o := o + t.txid;
    o := WriteList(o, t.orchard);
    o := WriteList(o, t.ironwood);
  }

  /** The inner loop over one transaction's outputs in one pool. */
  method WriteList(o0: seq<byte>, list: seq<CompactOutput>) returns (o: seq<byte>)
    ensures o == o0 + ListBytes(list)
  {
    o := o0 + Le(|list|, 4);
    ghost var head := o;
    var j := 0;
    while j < |list|
      invariant 0 <= j <= |list|
      invariant o == head + Cat(OutputBytes, list[..j])
    {
      var c := list[j];
      ghost var before := o;
      o := o + c.nullifier;
      o := o + c.cmx;
      o := o + c.epk;
      o := o + c.ciphertext;
      assert o == before + OutputBytes(c);
      WroteOne(OutputBytes, head, list, j);
      j := j + 1;
    }
    assert list[..j] == list;
    Assoc(o0, Le(|list|, 4), Cat(OutputBytes, list));
  }

  /** `CompactBlock::decode`: what it accepts is exactly what `encode` writes,
      and it returns the block that was written. */
  method Decode(b: seq<byte>) returns (r: Option<CompactBlock>)
    ensures r == ParseBlock(b)
    ensures forall k :: r == Some(k) <==> Fits(k) && b == BlockBytes(k)
  {
    forall k ensures ParseBlock(b) == Some(k) <==> Fits(k) && b == BlockBytes(k) {
      EncodingIsABijection(k, b);
    }
    var header, p := ReadHeader(b);
    if header.None? { return None; }
    var txs, q := ReadTxs(b, p);
    if txs.None? { return None; }
    if q != |b| { return None; }
    r := Some(CompactBlock(header.value.0, header.value.1, txs.value));
  }

  method ReadHeader(b: seq<byte>) returns (h: Option<(u64, Bytes32)>, p: nat)
    ensures h.None? <==> ParseHeader(b).None?
    ensures h.Some? ==> p <= |b| && ParseHeader(b) == Some((h.value, b[p..]))
  {
    p := 0;
    assert b[p..] == b;
    var magic := Get(b, p, 6);
    if magic.None? || magic.value != MAGIC { return None, p; }
    p := p + 6;
    var height := Get(b, p, 8);
    if height.None? { return None, p; }
    p := p + 8;
    var hash := Get(b, p, 32);
    if hash.None? { return None, p; }
    p := p + 32;
    Widths();
    LeOfFromLe(height.value);
    h := Some((FromLe(height.value), hash.value));
  }

  method ReadTxs(b: seq<byte>, p0: nat) returns (l: Option<seq<CompactTx>>, p: nat)
    requires p0 <= |b|
    ensures l.None? <==> ParseTxs(b[p0..]).None?
    ensures l.Some? ==> p <= |b| && ParseTxs(b[p0..]) == Some((l.value, b[p..]))
  {
    p := p0;
    var count := Get(b, p, 4);
    if count.None? { return None, p; }
    p := p + 4;
    var n := FromLe(count.value);
    ghost var start := b[p..];
    var txs: seq<CompactTx> := [];
    PrependNothing(Many(ParseTx, start, n));
    var i := 0;
    while i < n
      invariant 0 <= i <= n && p <= |b|
      invariant Many(ParseTx, start, n) == Prepend(txs, Many(ParseTx, b[p..], n - i))
    {
      ManyStep(ParseTx, txs, b[p..], n - i);
      var t, q := ReadTx(b, p);
      if t.None? { return None, p; }
      p := q;
      txs := txs + [t.value];
      i := i + 1;
    }
    PrependEnd(ParseTx, txs, b[p..]);
    l := Some(txs);
  }

  method ReadTx(b: seq<byte>, p0: nat) returns (t: Option<CompactTx>, p: nat)
    requires p0 <= |b|
    ensures t.None? <==> ParseTx(b[p0..]).None?
    ensures t.Some? ==> p <= |b| && ParseTx(b[p0..]) == Some((t.value, b[p..]))
  {
    p := p0;
    var index := Get(b, p, 4);
    if index.None? { return None, p; }
    p := p + 4;
    var txid := Get(b, p, 32);
    if txid.None? { return None, p; }
    p := p + 32;
    var orchard, q := ReadList(b, p);
    if orchard.None? { return None, p; }
    p := q;
    var ironwood;
    ironwood, q := ReadList(b, p);
    if ironwood.None? { return None, p; }
    p := q;
    Widths();
    LeOfFromLe(index.value);
    t := Some(CompactTx(FromLe(index.value), txid.value, orchard.value, ironwood.value));
  }

  method ReadList(b: seq<byte>, p0: nat) returns (l: Option<seq<CompactOutput>>, p: nat)
    requires p0 <= |b|
    ensures l.None? <==> ParseList(b[p0..]).None?
    ensures l.Some? ==> p <= |b| && ParseList(b[p0..]) == Some((l.value, b[p..]))
  {
    p := p0;
    var count := Get(b, p, 4);
    if count.None? { return None, p; }
    p := p + 4;
    var m := FromLe(count.value);
    ghost var start := b[p..];
    var list: seq<CompactOutput> := [];
    PrependNothing(Many(ParseOutput, start, m));
    var j := 0;
    while j < m
      invariant 0 <= j <= m && p <= |b|
      invariant Many(ParseOutput, start, m) == Prepend(list, Many(ParseOutput, b[p..], m - j))
    {
      ManyStep(ParseOutput, list, b[p..], m - j);
      var c, q := ReadOutput(b, p);
      if c.None? { return None, p; }
      p := q;
      list := list + [c.value];
      j := j + 1;
    }
    PrependEnd(ParseOutput, list, b[p..]);
    l := Some(list);
  }

  method ReadOutput(b: seq<byte>, p0: nat) returns (c: Option<CompactOutput>, p: nat)
    requires p0 <= |b|
    ensures c.None? <==> ParseOutput(b[p0..]).None?
    ensures c.Some? ==> p <= |b| && ParseOutput(b[p0..]) == Some((c.value, b[p..]))
  {
    p := p0;
    var nullifier := Get(b, p, 32);
    if nullifier.None? { return None, p; }
    p := p + 32;
    var cmx := Get(b, p, 32);
    if cmx.None? { return None, p; }
    p := p + 32;
    var epk := Get(b, p, 32);
    if epk.None? { return None, p; }
    p := p + 32;
    var ciphertext := Get(b, p, 52);
    if ciphertext.None? { return None, p; }
    p := p + 52;
    c := Some(CompactOutput(nullifier.value, cmx.value, epk.value, ciphertext.value));
  }
}
