/** Base58Check transparent addresses: the writer (src/transparent.rs) and the
    parser in the payout path (src/payout.rs). SHA-256 is any function to 32 bytes. */
module Transparent {
  import opened Prelude
  import opened Base58

  type Sha256 = seq<byte> -> Bytes32

  datatype Address = PublicKeyHash(hash: Bytes20) | ScriptHash(hash: Bytes20)

  /** What an address is written for. */
  datatype NetworkType = Main | Test | Regtest

  /** What a payout is parsed for. */
  datatype Network = MainNetwork | TestNetwork

  function TypeOf(n: Network): NetworkType {
    if n.MainNetwork? then Main else Test
  }

  /** The first four bytes of the double hash. */
  function Checksum(body: seq<byte>, sha: Sha256): (c: seq<byte>)
    ensures |c| == 4
  {
    sha(sha(body))[..4]
  }

  function Body(a: Address, n: NetworkType): (b: seq<byte>)
    ensures |b| == 22
  {
    var (p2pkh, p2sh) := if n.Main? then ([0x1C, 0xB8], [0x1C, 0xBD]) else ([0x1D, 0x25], [0x1C, 0xBA]);
    match a
    case PublicKeyHash(h) => p2pkh + h
    case ScriptHash(h) => p2sh + h
  }

  ghost function EncodeSpec(a: Address, n: NetworkType, sha: Sha256): string {
    Base58.EncodeSpec(Body(a, n) + Checksum(Body(a, n), sha))
  }

  method EncodeTransparent(a: Address, n: NetworkType, sha: Sha256) returns (s: string)
    ensures s == EncodeSpec(a, n, sha)
  {
    var body := Body(a, n);
    s := Base58Encode(body + Checksum(body, sha));
  }

  /** The prefix picks the kind of address, on one network. */
  function FromBody(body: seq<byte>, n: Network): Option<Address>
    requires |body| == 22
  {
    var (p2pkh, p2sh) := if n.MainNetwork? then ([0x1C, 0xB8], [0x1C, 0xBD]) else ([0x1D, 0x25], [0x1C, 0xBA]);
    if body[..2] == p2pkh then Some(PublicKeyHash(body[2..]))
    else if body[..2] == p2sh then Some(ScriptHash(body[2..]))
    else None
  }

  function FromRaw(raw: seq<byte>, n: Network, sha: Sha256): Option<Address> {
    if |raw| != 26 then None
    else if Checksum(raw[..22], sha) != raw[22..] then None
    else FromBody(raw[..22], n)
  }

  ghost function ParseSpec(s: string, n: Network, sha: Sha256): Option<Address> {
    var raw := Base58.DecodeSpec(s);
    if raw.None? then None else FromRaw(raw.value, n, sha)
  }

  method TransparentAddress(s: string, n: Network, sha: Sha256) returns (a: Option<Address>)
    ensures a == ParseSpec(s, n, sha)
  {
    var raw := Base58Decode(s);
    if raw.None? {
      return None;
    }
    a := FromRaw(raw.value, n, sha);
  }

  // ------------------------------------------------------------ the two agree

  /** What is written for a network is read back on it. */
  lemma ParseEncode(a: Address, n: Network, sha: Sha256)
    ensures ParseSpec(EncodeSpec(a, TypeOf(n), sha), n, sha) == Some(a)
  {
    var body := Body(a, TypeOf(n));
    var raw := body + Checksum(body, sha);
    DecodeEncode(raw);
    assert raw[..22] == body && raw[22..] == Checksum(body, sha);
    BodyReads(a, n);
  }

  lemma BodyReads(a: Address, n: Network)
    ensures FromBody(Body(a, TypeOf(n)), n) == Some(a)
  {
    var body := Body(a, TypeOf(n));
    assert body[..2] + body[2..] == body && body[2..] == a.hash;
  }

  /** Every accepted string is the one string that address is written as. */
  lemma EncodeParse(s: string, n: Network, sha: Sha256)
    requires ParseSpec(s, n, sha).Some?
    ensures EncodeSpec(ParseSpec(s, n, sha).value, TypeOf(n), sha) == s
  {
    EncodeDecode(s);
    var raw := Base58.DecodeSpec(s).value;
    var a := ParseSpec(s, n, sha).value;
    assert raw == raw[..22] + raw[22..];
    assert raw[..22] == raw[..2] + raw[2..22] && raw[..22][..2] == raw[..2];
    assert raw[..22][2..] == raw[2..22] == a.hash;
    assert Body(a, TypeOf(n)) == raw[..22];
  }

  /** The two bytes an address starts with on a network. */
  ghost predicate StartsAs(a: Address, n: Network, first: byte, second: byte) {
    if n.MainNetwork? then first == 0x1C && second == (if a.PublicKeyHash? then 0xB8 else 0xBD)
    else if a.PublicKeyHash? then first == 0x1D && second == 0x25
    else first == 0x1C && second == 0xBA
  }

  ghost predicate Spells(
      raw: Option<seq<byte>>, a: Address, n: Network, sha: Sha256, first: byte, second: byte)
  {
    && StartsAs(a, n, first, second)
    && raw == Some([first, second] + a.hash + sha(sha([first, second] + a.hash))[..4])
  }

  /** A string is an address exactly when it spells, in base58, the two bytes of its
      kind on the network, the twenty of its hash, and the first four of the hash of
      the hash of those. */
  lemma AcceptedExactlyWhen(s: string, n: Network, sha: Sha256, a: Address)
    ensures ParseSpec(s, n, sha) == Some(a) <==>
              exists first: byte, second: byte :: Spells(Base58.DecodeSpec(s), a, n, sha, first, second)
  {
    var raw := Base58.DecodeSpec(s);
    if ParseSpec(s, n, sha) == Some(a) {
      AcceptedSpells(raw.value, n, sha, a);
    }
    if exists first: byte, second: byte :: Spells(raw, a, n, sha, first, second) {
      var first: byte, second: byte :| Spells(raw, a, n, sha, first, second);
      SpelledIsAccepted(raw.value, n, sha, a, first, second);
    }
  }

  lemma AcceptedSpells(raw: seq<byte>, n: Network, sha: Sha256, a: Address)
    requires FromRaw(raw, n, sha) == Some(a)
    ensures |raw| == 26 && Spells(Some(raw), a, n, sha, raw[0], raw[1])
  {
    assert raw == raw[..22] + raw[22..] && raw[..22] == raw[..2] + raw[2..22];
    assert raw[..22][..2] == raw[..2] == [raw[0], raw[1]] && raw[..22][2..] == raw[2..22] == a.hash;
  }

  lemma SpelledIsAccepted(raw: seq<byte>, n: Network, sha: Sha256, a: Address, first: byte, second: byte)
    requires Spells(Some(raw), a, n, sha, first, second)
    ensures FromRaw(raw, n, sha) == Some(a)
  {
    var body := [first, second] + a.hash;
    assert raw[..22] == body && raw[22..] == sha(sha(body))[..4];
    assert body[..2] == [first, second] && body[2..] == a.hash;
    assert body[..2][1] == second && [0x1C, 0xB8][1] == 0xB8 && [0x1D, 0x25][1] == 0x25;
  }

  /** And it is written so: on the regression network as on the test network. */
  lemma WrittenAs(a: Address, n: Network, sha: Sha256)
    ensures exists first: byte, second: byte ::
              Spells(Base58.DecodeSpec(EncodeSpec(a, TypeOf(n), sha)), a, n, sha, first, second)
    ensures EncodeSpec(a, Regtest, sha) == EncodeSpec(a, Test, sha)
  {
    ParseEncode(a, n, sha);
    AcceptedExactlyWhen(EncodeSpec(a, TypeOf(n), sha), n, sha, a);
  }

  /** No string is an address of both networks, and none written for one is read on the other. */
  lemma NetworksDoNotMix(s: string, a: Address, sha: Sha256)
    ensures ParseSpec(s, MainNetwork, sha).None? || ParseSpec(s, TestNetwork, sha).None?
    ensures ParseSpec(EncodeSpec(a, Main, sha), TestNetwork, sha).None?
    ensures ParseSpec(EncodeSpec(a, Test, sha), MainNetwork, sha).None?
    ensures ParseSpec(EncodeSpec(a, Regtest, sha), MainNetwork, sha).None?
  {
    ParseEncode(a, MainNetwork, sha);
    ParseEncode(a, TestNetwork, sha);
    assert EncodeSpec(a, Regtest, sha) == EncodeSpec(a, Test, sha);
    PrefixesDiffer(EncodeSpec(a, Main, sha), sha);
    PrefixesDiffer(EncodeSpec(a, Test, sha), sha);
    PrefixesDiffer(s, sha);
  }

  lemma PrefixesDiffer(s: string, sha: Sha256)
    ensures ParseSpec(s, MainNetwork, sha).None? || ParseSpec(s, TestNetwork, sha).None?
  {
    if Base58.DecodeSpec(s).Some? && |Base58.DecodeSpec(s).value| == 26 {
      var p := Base58.DecodeSpec(s).value[..22][..2];
      assert [0x1C, 0xB8][1] == 0xB8 && [0x1C, 0xBD][1] == 0xBD && [0x1D, 0x25][1] == 0x25 && [0x1C, 0xBA][1] == 0xBA;
    }
  }
}
