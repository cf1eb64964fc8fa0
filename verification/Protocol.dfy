/** Canonical protocol values: bounded integers, identifiers, references and operations. */
module Protocol {
  import opened Collections

  const U32_LIMIT: int := 0x1_0000_0000
  const BYTES32_LIMIT: int :=
    0x1_0000000000000000_0000000000000000_0000000000000000_0000000000000000
  /** The order of the Pallas base field. */
  const PALLAS_P: int :=
    0x4000000000000000_0000000000000000_224698fc094cf91b_992d30ed00000001
  const MAX_NAME_BYTES: nat := 63
  const MAX_UA_BYTES: nat := 1024

  newtype byte = x: int | 0 <= x < 256
  type u32 = x: int | 0 <= x < U32_LIMIT

  /** Thirty-two bytes read as one big-endian number, so that `<` is their lexicographic order. */
  type Bytes32 = x: int | 0 <= x < BYTES32_LIMIT
  type NameId = Bytes32
  type Proof = seq<byte>

  /** A canonical field encoding, by the number it denotes. */
  type FieldElement = x: int | 0 <= x < PALLAS_P
  /** A nonzero field element. */
  type Commitment = x: int | 0 < x < PALLAS_P witness 1

  predicate NameByte(b: byte) {
    (97 <= b <= 122) || (48 <= b <= 57) || b == 45
  }

  /** One to sixty-three lower-case letters, digits and hyphens, no hyphen at either end. */
  predicate CanonicalName(s: seq<byte>) {
    && 0 < |s| <= MAX_NAME_BYTES
    && s[0] != 45
    && s[|s| - 1] != 45
    && forall i :: 0 <= i < |s| ==> NameByte(s[i])
  }

  type Name = s: seq<byte> | CanonicalName(s) witness [97]

  /** The bytes of ".zec". */
  const SUFFIX: seq<byte> := [46, 122, 101, 99]

  function StripSuffix(value: seq<byte>): seq<byte> {
    if |value| >= |SUFFIX| && value[|value| - |SUFFIX|..] == SUFFIX
    then value[..|value| - |SUFFIX|]
    else value
  }

  /** Accepts a bare name or one with a single ".zec" suffix. */
  function ParseName(value: seq<byte>): Option<Name> {
    var bare := StripSuffix(value);
    if CanonicalName(bare) then Some(bare) else None
  }

  /** The spellings of a name are the bare one and the one with the suffix, and no other. */
  lemma NameSpellings(value: seq<byte>, name: Name)
    ensures ParseName(value) == Some(name) <==> value == name || value == name + SUFFIX
  {
    assert forall i :: 0 <= i < |name| ==> NameByte(name[i]);
    assert |name| >= |SUFFIX| ==> name[|name| - |SUFFIX|..][0] == name[|name| - |SUFFIX|];
    if value == name + SUFFIX {
      assert value[|value| - |SUFFIX|..] == SUFFIX;
      assert value[..|value| - |SUFFIX|] == name;
    }
    assert |value| >= |SUFFIX| ==> value == value[..|value| - |SUFFIX|] + value[|value| - |SUFFIX|..];
  }

  datatype Network = Main | Test | Regtest

  /** The text of a Unified Address; which network it is canonical for is decided elsewhere. */
  type Ua = s: seq<byte> | 0 < |s| <= MAX_UA_BYTES witness [117]

  datatype CommitRef = CommitRef(height: u32, txIndex: u32, txid: Bytes32)

  /** The order of references: by height, then by transaction, then by identifier. */
  function RefRank(r: CommitRef): nat {
    (r.height * U32_LIMIT + r.txIndex) * BYTES32_LIMIT + r.txid
  }

  function NameRank(nameId: NameId): nat {
    nameId
  }

  lemma RefRankIsLexicographic(a: CommitRef, b: CommitRef)
    ensures RefRank(a) < RefRank(b)
            <==> || a.height < b.height
                 || (a.height == b.height && a.txIndex < b.txIndex)
                 || (a.height == b.height && a.txIndex == b.txIndex && a.txid < b.txid)
  {
  }

  lemma RefsRanked<V>(m: map<CommitRef, V>)
    ensures Ranks(m, RefRank)
  {
    forall a, b | a in m && b in m && RefRank(a) == RefRank(b) ensures a == b {
      RefRankIsLexicographic(a, b);
      RefRankIsLexicographic(b, a);
    }
  }

  lemma NamesRanked<V>(m: map<NameId, V>)
    ensures Ranks(m, NameRank)
  {
  }

  datatype StateRef = StateRef(height: u32, txIndex: u32, txid: Bytes32, actionIndex: u32)

  datatype Operation =
    | Commit(commitment: Commitment)
    | Reveal(name: Name, commit: CommitRef, ua: Ua, actionIndex: u32,
             successorFutureNf: FieldElement, proof: Proof)
    | Refresh(name: Name, predecessor: StateRef, ua: Ua, actionIndex: u32,
              successorFutureNf: FieldElement, proof: Proof)

  function CheckedAdd(a: u32, b: u32): Option<u32> {
    if a + b < U32_LIMIT then Some(a + b) else None
  }

  function CheckedMul(a: u32, b: u32): Option<u32> {
    if a * b < U32_LIMIT then Product(a, b) else None
  }

  function Product(a: u32, b: u32): Option<u32>
    requires a * b < U32_LIMIT
  {
    ProductNonNegative(a, b);
    Some(a * b)
  }

  lemma {:induction false} ProductNonNegative(a: nat, b: nat)
    ensures 0 <= a * b
  {
    if a > 0 {
      ProductNonNegative(a - 1, b);
      assert a * b == (a - 1) * b + b;
    }
  }

  lemma NegativeProduct(a: int, b: nat)
    requires a < 0
    ensures a * b + b <= 0
  {
    ProductNonNegative(-a - 1, b);
    assert (-a - 1) * b == -(a * b) - b;
  }

  lemma QuotientSpan(a: nat, b: nat)
    requires b > 0
    ensures 0 <= a / b <= a
    ensures a / b * b <= a < a / b * b + b
  {
    var q := a / b;
    assert a == q * b + a % b;
    if q < 0 {
      NegativeProduct(q, b);
      assert false;
    }
    ProductNonNegative(q, b - 1);
    assert q * (b - 1) == q * b - q;
  }

  lemma SmallRemainder(a: nat, b: nat)
    requires a < b
    ensures a % b == a
  {
    var q := a / b;
    QuotientSpan(a, b);
    assert a == q * b + a % b;
    if q > 0 {
      PositiveProduct(q, b);
      assert false;
    }
  }

  lemma PositiveProduct(a: nat, b: nat)
    requires a > 0
    ensures a * b >= b
  {
    ProductNonNegative(a - 1, b);
    assert (a - 1) * b == a * b - b;
  }
}
