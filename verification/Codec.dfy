/** The wire form of operations: an encoder, a cursor-driven decoder, and exactly what decodes. */
module Codec {
  import opened Collections
  import opened Protocol
  import opened Bytes

  const COMMIT_TAG: byte := 0
  const REVEAL_TAG: byte := 1
  const REFRESH_TAG: byte := 2
  const MAX_REVEAL_PROOF_BYTES: nat := 14_890
  const MAX_REFRESH_PROOF_BYTES: nat := 14_886

  datatype CodecError =
    | InvalidTag | Truncated | TrailingBytes | InvalidName | InvalidUa | InvalidField | InvalidProofLength | TooLarge

  /** Proof lengths of one deployment, the payload bound of the carrier, and which addresses a network accepts. */
  datatype CodecParameters = CodecParameters(
    revealProofBytes: nat, refreshProofBytes: nat, maxPayload: nat, uaOn: (Network, Ua) -> bool)
  {
    predicate Valid() {
      revealProofBytes <= MAX_REVEAL_PROOF_BYTES && refreshProofBytes <= MAX_REFRESH_PROOF_BYTES
    }

    function ProofBytes(op: Operation): nat
      requires !op.Commit?
    {
      if op.Reveal? then revealProofBytes else refreshProofBytes
    }
  }

  // ---- the wire form ----

  function EncodeName(name: Bytes): Bytes
    requires |name| < 256
  {
    [|name| as byte] + name
  }

  function EncodeUa(ua: Ua): Bytes {
    BigEndian(|ua|, 2) + ua
  }

  function EncodeCommitRef(r: CommitRef): Bytes {
    BigEndian(r.height, 4) + (BigEndian(r.txIndex, 4) + BigEndian(r.txid, 32))
  }

  function EncodeStateRef(r: StateRef): Bytes {
    BigEndian(r.height, 4) + (BigEndian(r.txIndex, 4) + (BigEndian(r.txid, 32) + BigEndian(r.actionIndex, 4)))
  }

  function EncodeTail(ua: Ua, actionIndex: u32, successorFutureNf: FieldElement, proof: Proof): Bytes {
    EncodeUa(ua) + (BigEndian(actionIndex, 4) + (LittleEndian(successorFutureNf, 32) + proof))
  }

  /** The wire form of an operation whose name is written with the given spelling. */
  function Spelled(op: Operation, spelling: Bytes): Bytes
    requires |spelling| < 256
  {
    match op
    case Commit(commitment) => [COMMIT_TAG] + LittleEndian(commitment, 32)
    case Reveal(_, commit, ua, actionIndex, nf, proof) =>
      [REVEAL_TAG] + (EncodeName(spelling) + (EncodeCommitRef(commit) + EncodeTail(ua, actionIndex, nf, proof)))
    case Refresh(_, predecessor, ua, actionIndex, nf, proof) =>
      [REFRESH_TAG] + (EncodeName(spelling) + (EncodeStateRef(predecessor) + EncodeTail(ua, actionIndex, nf, proof)))
  }

  function Wire(op: Operation): Bytes {
    Spelled(op, if op.Commit? then [] else op.name)
  }

  /** The same operation with ".zec" after its name. */
  function SuffixedWire(op: Operation): Bytes
    requires !op.Commit?
  {
    Spelled(op, op.name + SUFFIX)
  }

  function Encoded(op: Operation, parameters: CodecParameters): Result<Bytes, CodecError> {
    if !parameters.Valid() then Err(TooLarge)
    else if !op.Commit? && |op.proof| != parameters.ProofBytes(op) then Err(InvalidProofLength)
    else if |Wire(op)| > parameters.maxPayload then Err(TooLarge)
    else Ok(Wire(op))
  }

  method PushCommitRef(buffer: Bytes, r: CommitRef) returns (out: Bytes)
    ensures out == buffer + EncodeCommitRef(r)
  {
    hide BigEndian;
    out := buffer + BigEndian(r.height, 4);
    out := out + BigEndian(r.txIndex, 4);
    out := out + BigEndian(r.txid, 32);
  }

  method PushStateRef(buffer: Bytes, r: StateRef) returns (out: Bytes)
    ensures out == buffer + EncodeStateRef(r)
  {
    hide BigEndian;
    out := buffer + BigEndian(r.height, 4);
    out := out + BigEndian(r.txIndex, 4);
    out := out + BigEndian(r.txid, 32);
    out := out + BigEndian(r.actionIndex, 4);
  }

  method PushTail(buffer: Bytes, ua: Ua, actionIndex: u32, nf: FieldElement, proof: Proof) returns (out: Bytes)
    ensures out == buffer + EncodeTail(ua, actionIndex, nf, proof)
  {
    hide BigEndian, LittleEndian;
    out := buffer + BigEndian(|ua|, 2);
    out := out + ua;
    out := out + BigEndian(actionIndex, 4);
    out := out + LittleEndian(nf, 32);
    out := out + proof;
  }

  /** Appends each part of the operation to a buffer, in wire order. */
  method Encode(op: Operation, parameters: CodecParameters) returns (r: Result<Bytes, CodecError>)
    ensures r == Encoded(op, parameters)
  {
    hide LittleEndian, EncodeCommitRef, EncodeStateRef, EncodeTail;
    if !parameters.Valid() {
      return Err(TooLarge);
    }
    var out: Bytes := [];
    match op {
      case Commit(commitment) =>
        out := out + [COMMIT_TAG];
        out := out + LittleEndian(commitment, 32);
      case Reveal(name, commit, ua, actionIndex, nf, proof) =>
        if |proof| != parameters.revealProofBytes {
          return Err(InvalidProofLength);
        }
        out := out + [REVEAL_TAG];
        out := out + ([|name| as byte] + name);
        out := PushCommitRef(out, commit);
        out := PushTail(out, ua, actionIndex, nf, proof);
      case Refresh(name, predecessor, ua, actionIndex, nf, proof) =>
        if |proof| != parameters.refreshProofBytes {
          return Err(InvalidProofLength);
        }
        out := out + [REFRESH_TAG];
        out := out + ([|name| as byte] + name);
        out := PushStateRef(out, predecessor);
        out := PushTail(out, ua, actionIndex, nf, proof);
    }
    assert out == Wire(op);
    if |out| > parameters.maxPayload {
      return Err(TooLarge);
    }
    return Ok(out);
  }

  // ---- reading from the front ----

  /** A value read from the front of the input, and what remains after it. */
  type Parsed<+T> = Result<(T, Bytes), CodecError>

  function Take(s: Bytes, n: nat): Parsed<Bytes> {
    if |s| < n then Err(Truncated) else Ok((s[..n], s[n..]))
  }

  function TakeNumber(s: Bytes, n: nat): Parsed<nat> {
    var (digits, rest) :- Take(s, n);
    Ok((FromBigEndian(digits), rest))
  }

  function TakeU32(s: Bytes): Parsed<u32> {
    var (digits, rest) :- Take(s, 4);
    BigEndianWrites(digits); Widths();
    Ok((FromBigEndian(digits), rest))
  }

  function TakeBytes32(s: Bytes): Parsed<Bytes32> {
    var (digits, rest) :- Take(s, 32);
    BigEndianWrites(digits); Widths();
    Ok((FromBigEndian(digits), rest))
  }

  function TakeField(s: Bytes): Parsed<FieldElement> {
    var (digits, rest) :- Take(s, 32);
    if FromLittleEndian(digits) >= PALLAS_P then Err(InvalidField) else Ok((FromLittleEndian(digits), rest))
  }

  function TakeName(s: Bytes): Parsed<Name> {
    var (length, rest) :- TakeNumber(s, 1);
    var (value, rest) :- Take(rest, length);
    match ParseName(value)
    case None => Err(InvalidName)
    case Some(name) => Ok((name, rest))
  }

  function TakeUa(s: Bytes, network: Network, parameters: CodecParameters): Parsed<Ua> {
    var (length, rest) :- TakeNumber(s, 2);
    var (value, rest) :- Take(rest, length);
    if !(0 < |value| <= MAX_UA_BYTES) then Err(InvalidUa)
    else
      var ua: Ua := value;
      if parameters.uaOn(network, ua) then Ok((ua, rest)) else Err(InvalidUa)
  }

  function TakeProof(s: Bytes, length: nat): Parsed<Proof> {
    if |s| < length then Err(InvalidProofLength) else Ok((s[..length], s[length..]))
  }

  function TakeCommitRef(s: Bytes): Parsed<CommitRef> {
    var (height, rest) :- TakeU32(s);
    var (txIndex, rest) :- TakeU32(rest);
    var (txid, rest) :- TakeBytes32(rest);
    Ok((CommitRef(height, txIndex, txid), rest))
  }

  function TakeStateRef(s: Bytes): Parsed<StateRef> {
    var (height, rest) :- TakeU32(s);
    var (txIndex, rest) :- TakeU32(rest);
    var (txid, rest) :- TakeBytes32(rest);
    var (actionIndex, rest) :- TakeU32(rest);
    Ok((StateRef(height, txIndex, txid, actionIndex), rest))
  }

  datatype Tail = Tail(ua: Ua, actionIndex: u32, successorFutureNf: FieldElement, proof: Proof)

  function TakeTail(s: Bytes, network: Network, parameters: CodecParameters, proofBytes: nat): Parsed<Tail> {
    var (ua, rest) :- TakeUa(s, network, parameters);
    var (actionIndex, rest) :- TakeU32(rest);
    var (nf, rest) :- TakeField(rest);
    var (proof, rest) :- TakeProof(rest, proofBytes);
    Ok((Tail(ua, actionIndex, nf, proof), rest))
  }

  function TakeCommit(s: Bytes): (r: Parsed<Operation>)
    ensures r.Ok? ==> r.value.0.Commit?
  {
    var (value, rest) :- TakeField(s);
    if value == 0 then Err(InvalidField) else Ok((Commit(value), rest))
  }

  function TakeReveal(s: Bytes, network: Network, parameters: CodecParameters): (r: Parsed<Operation>)
    ensures r.Ok? ==> r.value.0.Reveal?
  {
    var (name, rest) :- TakeName(s);
    var (commit, rest) :- TakeCommitRef(rest);
    var (tail, rest) :- TakeTail(rest, network, parameters, parameters.revealProofBytes);
    Ok((Reveal(name, commit, tail.ua, tail.actionIndex, tail.successorFutureNf, tail.proof), rest))
  }

  function TakeRefresh(s: Bytes, network: Network, parameters: CodecParameters): (r: Parsed<Operation>)
    ensures r.Ok? ==> r.value.0.Refresh?
  {
    var (name, rest) :- TakeName(s);
    var (predecessor, rest) :- TakeStateRef(rest);
    var (tail, rest) :- TakeTail(rest, network, parameters, parameters.refreshProofBytes);
    Ok((Refresh(name, predecessor, tail.ua, tail.actionIndex, tail.successorFutureNf, tail.proof), rest))
  }

  function TakeOperation(s: Bytes, network: Network, parameters: CodecParameters): Parsed<Operation> {
    if s == [] then Err(Truncated)
    else if s[0] == COMMIT_TAG then TakeCommit(s[1..])
    else if s[0] == REVEAL_TAG then TakeReveal(s[1..], network, parameters)
    else if s[0] == REFRESH_TAG then TakeRefresh(s[1..], network, parameters)
    else Err(InvalidTag)
  }

  function Decoded(s: Bytes, network: Network, parameters: CodecParameters): Result<Operation, CodecError> {
    if !parameters.Valid() then Err(TooLarge)
    else
      var (op, rest) :- TakeOperation(s, network, parameters);
      if rest != [] then Err(TrailingBytes) else Ok(op)
  }

  // ---- the decoder ----

  /** A cursor over the input; each read takes bytes off the front or fails and leaves them. */
  class Decoder {
    var remaining: Bytes

    constructor (bytes: Bytes)
      ensures remaining == bytes
    {
      remaining := bytes;
    }

    method ReadBytes(length: nat) returns (r: Result<Bytes, CodecError>)
      modifies this
      ensures match Take(old(remaining), length) {
        case Err(e) => r == Err(e) && remaining == old(remaining)
        case Ok((value, rest)) => r == Ok(value) && remaining == rest
      }
    {
      if |remaining| < length {
        return Err(Truncated);
      }
      r := Ok(remaining[..length]);
      remaining := remaining[length..];
    }

    method ReadNumber(width: nat) returns (r: Result<nat, CodecError>)
      modifies this
      ensures match TakeNumber(old(remaining), width) {
        case Err(e) => r == Err(e)
        case Ok((value, rest)) => r == Ok(value) && remaining == rest
      }
    {
      var digits :- ReadBytes(width);
      return Ok(FromBigEndian(digits));
    }

    method ReadU32() returns (r: Result<u32, CodecError>)
      modifies this
      ensures match TakeU32(old(remaining)) {
        case Err(e) => r == Err(e)
        case Ok((value, rest)) => r == Ok(value) && remaining == rest
      }
    {
      var digits :- ReadBytes(4);
      BigEndianWrites(digits);
      Widths();
      return Ok(FromBigEndian(digits));
    }

    method ReadBytes32() returns (r: Result<Bytes32, CodecError>)
      modifies this
      ensures match TakeBytes32(old(remaining)) {
        case Err(e) => r == Err(e)
        case Ok((value, rest)) => r == Ok(value) && remaining == rest
      }
    {
      var digits :- ReadBytes(32);
      BigEndianWrites(digits);
      Widths();
      return Ok(FromBigEndian(digits));
    }

    method ReadField() returns (r: Result<FieldElement, CodecError>)
      modifies this
      ensures match TakeField(old(remaining)) {
        case Err(e) => r == Err(e)
        case Ok((value, rest)) => r == Ok(value) && remaining == rest
      }
    {
      var digits :- ReadBytes(32);
      if FromLittleEndian(digits) >= PALLAS_P {
        return Err(InvalidField);
      }
      return Ok(FromLittleEndian(digits));
    }

    method ReadName() returns (r: Result<Name, CodecError>)
      modifies this
      ensures match TakeName(old(remaining)) {
        case Err(e) => r == Err(e)
        case Ok((value, rest)) => r == Ok(value) && remaining == rest
      }
    {
      var length :- ReadNumber(1);
      var value :- ReadBytes(length);
      match ParseName(value) {
        case None => return Err(InvalidName);
        case Some(name) => return Ok(name);
      }
    }

    method ReadUa(network: Network, parameters: CodecParameters) returns (r: Result<Ua, CodecError>)
      modifies this
      ensures match TakeUa(old(remaining), network, parameters) {
        case Err(e) => r == Err(e)
        case Ok((value, rest)) => r == Ok(value) && remaining == rest
      }
    {
      var length :- ReadNumber(2);
      var value :- ReadBytes(length);
      if !(0 < |value| <= MAX_UA_BYTES) {
        return Err(InvalidUa);
      }
      var ua: Ua := value;
      if !parameters.uaOn(network, ua) {
        return Err(InvalidUa);
      }
      return Ok(ua);
    }

    method ReadTail(network: Network, parameters: CodecParameters, proofBytes: nat)
      returns (r: Result<Tail, CodecError>)
      modifies this
      ensures match TakeTail(old(remaining), network, parameters, proofBytes) {
        case Err(e) => r == Err(e)
        case Ok((value, rest)) => r == Ok(value) && remaining == rest
      }
    {
      hide TakeUa, TakeU32, TakeField;
      var ua :- ReadUa(network, parameters);
      var actionIndex :- ReadU32();
      var nf :- ReadField();
      if |remaining| < proofBytes {
        return Err(InvalidProofLength);
      }
      var proof :- ReadBytes(proofBytes);
      return Ok(Tail(ua, actionIndex, nf, proof));
    }

    method ReadOperation(network: Network, parameters: CodecParameters) returns (r: Result<Operation, CodecError>)
      modifies this
      ensures match TakeOperation(old(remaining), network, parameters) {
        case Err(e) => r == Err(e)
        case Ok((value, rest)) => r == Ok(value) && remaining == rest
      }
    {
      hide TakeU32, TakeBytes32, TakeField, TakeName, TakeTail;
      var tag :- ReadBytes(1);
      if tag == [COMMIT_TAG] {
        var value :- ReadField();
        if value == 0 {
          return Err(InvalidField);
        }
        return Ok(Commit(value));
      } else if tag == [REVEAL_TAG] {
        var name :- ReadName();
        var height :- ReadU32();
        var txIndex :- ReadU32();
        var txid :- ReadBytes32();
        var tail :- ReadTail(network, parameters, parameters.revealProofBytes);
        return Ok(Reveal(name, CommitRef(height, txIndex, txid), tail.ua, tail.actionIndex,
                         tail.successorFutureNf, tail.proof));
      } else if tag == [REFRESH_TAG] {
        var name :- ReadName();
        var height :- ReadU32();
        var txIndex :- ReadU32();
        var txid :- ReadBytes32();
        var actionIndex :- ReadU32();
        var tail :- ReadTail(network, parameters, parameters.refreshProofBytes);
        return Ok(Refresh(name, StateRef(height, txIndex, txid, actionIndex), tail.ua, tail.actionIndex,
                          tail.successorFutureNf, tail.proof));
      } else {
        return Err(InvalidTag);
      }
    }
  }

  method Decode(bytes: Bytes, network: Network, parameters: CodecParameters) returns (r: Result<Operation, CodecError>)
    ensures r == Decoded(bytes, network, parameters)
  {
    hide TakeOperation;
    if !parameters.Valid() {
      return Err(TooLarge);
    }
    var input := new Decoder(bytes);
    var op :- input.ReadOperation(network, parameters);
    if input.remaining != [] {
      return Err(TrailingBytes);
    }
    return Ok(op);
  }

  // ---- every read is undone by its write, and the other way round ----

  lemma TakeExactly(a: Bytes, rest: Bytes)
    ensures Take(a + rest, |a|) == Ok((a, rest))
  {
  }

  lemma TakeSplits(s: Bytes, n: nat)
    requires Take(s, n).Ok?
    ensures s == Take(s, n).value.0 + Take(s, n).value.1 && |Take(s, n).value.0| == n
  {
  }

  /** Reading a 32-bit number succeeds with this value exactly when the input starts with its bytes. */
  lemma U32Exact(s: Bytes, n: u32, rest: Bytes)
    ensures TakeU32(s) == Ok((n, rest)) <==> s == BigEndian(n, 4) + rest
  {
    hide BigEndian, FromBigEndian;
    Widths();
    BigEndianReads(n, 4);
    TakeExactly(BigEndian(n, 4), rest);
    if TakeU32(s).Ok? {
      TakeSplits(s, 4);
      BigEndianWrites(s[..4]);
    }
  }

  lemma Bytes32Exact(s: Bytes, n: Bytes32, rest: Bytes)
    ensures TakeBytes32(s) == Ok((n, rest)) <==> s == BigEndian(n, 32) + rest
  {
    hide BigEndian, FromBigEndian, Pow256;
    Widths();
    BigEndianReads(n, 32);
    TakeExactly(BigEndian(n, 32), rest);
    if TakeBytes32(s).Ok? {
      TakeSplits(s, 32);
      BigEndianWrites(s[..32]);
    }
  }

  lemma NumberExact(s: Bytes, width: nat, n: nat, rest: Bytes)
    requires n < Pow256(width)
    ensures TakeNumber(s, width) == Ok((n, rest)) <==> s == BigEndian(n, width) + rest
  {
    hide BigEndian, FromBigEndian, Pow256;
    BigEndianReads(n, width);
    TakeExactly(BigEndian(n, width), rest);
    if TakeNumber(s, width).Ok? {
      TakeSplits(s, width);
      BigEndianWrites(s[..width]);
    }
  }

  lemma FieldExact(s: Bytes, n: FieldElement, rest: Bytes)
    ensures TakeField(s) == Ok((n, rest)) <==> s == LittleEndian(n, 32) + rest
  {
    hide LittleEndian, FromLittleEndian, Pow256;
    Widths();
    LittleEndianReads(n, 32);
    TakeExactly(LittleEndian(n, 32), rest);
    if TakeField(s).Ok? {
      TakeSplits(s, 32);
      LittleEndianWrites(s[..32]);
    }
  }

  /** A name is read from its bare spelling and from the one with the suffix, and from nothing else. */
  lemma NameExact(s: Bytes, name: Name, rest: Bytes)
    ensures TakeName(s) == Ok((name, rest))
            <==> s == EncodeName(name) + rest || s == EncodeName(name + SUFFIX) + rest
  {
    assert |name| <= MAX_NAME_BYTES;
    hide TakeName, EncodeName;
    SpellingReads(s, name, name, rest);
    SpellingReads(s, name + SUFFIX, name, rest);
    if TakeName(s) == Ok((name, rest)) {
      NameRead(s, name, rest);
    }
  }

  lemma NameRead(s: Bytes, name: Name, rest: Bytes)
    requires TakeName(s) == Ok((name, rest))
    ensures s == EncodeName(name) + rest || s == EncodeName(name + SUFFIX) + rest
  {
    hide ParseName, CanonicalName, Pow256, BigEndian;
    Widths();
    var (length, tail) := TakeNumber(s, 1).value;
    var value := Take(tail, length).value.0;
    TakeSplits(s, 1);
    BigEndianWrites(s[..1]);
    NumberExact(s, 1, length, tail);
    TakeSplits(tail, length);
    NameSpellings(value, name);
    OneByte(length);
    assert s == EncodeName(value) + rest;
  }

  lemma OneByte(n: nat)
    requires n < 256
    ensures BigEndian(n, 1) == [n as byte]
  {
    assert BigEndian(n / 256, 0) == [];
  }

  lemma SpellingReads(s: Bytes, spelling: Bytes, name: Name, rest: Bytes)
    requires |spelling| < 256 && (spelling == name || spelling == name + SUFFIX)
    ensures s == EncodeName(spelling) + rest ==> TakeName(s) == Ok((name, rest))
  {
    hide ParseName, CanonicalName;
    if s == EncodeName(spelling) + rest {
      Widths();
      OneByte(|spelling|);
      assert s == BigEndian(|spelling|, 1) + (spelling + rest);
      NumberExact(s, 1, |spelling|, spelling + rest);
      TakeExactly(spelling, rest);
      NameSpellings(spelling, name);
    }
  }

  lemma UaExact(s: Bytes, network: Network, parameters: CodecParameters, ua: Ua, rest: Bytes)
    ensures TakeUa(s, network, parameters) == Ok((ua, rest))
            <==> parameters.uaOn(network, ua) && s == EncodeUa(ua) + rest
  {
    hide BigEndian, FromBigEndian;
    Widths();
    NumberExact(s, 2, |ua|, ua + rest);
    TakeExactly(ua, rest);
    assert EncodeUa(ua) + rest == BigEndian(|ua|, 2) + (ua + rest);
    if TakeUa(s, network, parameters) == Ok((ua, rest)) {
      var length := TakeNumber(s, 2).value.0;
      TakeSplits(s, 2);
      BigEndianWrites(s[..2]);
      NumberExact(s, 2, length, s[2..]);
      TakeSplits(s[2..], length);
    }
  }

  lemma CommitRefExact(s: Bytes, r: CommitRef, rest: Bytes)
    ensures TakeCommitRef(s) == Ok((r, rest)) <==> s == EncodeCommitRef(r) + rest
  {
    hide TakeU32, TakeBytes32, BigEndian;
    var h, i, t := BigEndian(r.height, 4), BigEndian(r.txIndex, 4), BigEndian(r.txid, 32);
    assert EncodeCommitRef(r) + rest == h + (i + (t + rest));
    U32Exact(s, r.height, i + (t + rest));
    U32Exact(i + (t + rest), r.txIndex, t + rest);
    Bytes32Exact(t + rest, r.txid, rest);
    if TakeCommitRef(s) == Ok((r, rest)) {
      var s1 := TakeU32(s).value.1;
      var s2 := TakeU32(s1).value.1;
      U32Exact(s, r.height, s1);
      U32Exact(s1, r.txIndex, s2);
      assert TakeBytes32(s2).value == (r.txid, rest);
      Bytes32Exact(s2, r.txid, rest);
    }
  }

  lemma StateRefExact(s: Bytes, r: StateRef, rest: Bytes)
    ensures TakeStateRef(s) == Ok((r, rest)) <==> s == EncodeStateRef(r) + rest
  {
    hide TakeU32, TakeBytes32, BigEndian;
    var h, i, t, a := BigEndian(r.height, 4), BigEndian(r.txIndex, 4), BigEndian(r.txid, 32),
        BigEndian(r.actionIndex, 4);
    assert EncodeStateRef(r) + rest == h + (i + (t + (a + rest)));
    U32Exact(s, r.height, i + (t + (a + rest)));
    U32Exact(i + (t + (a + rest)), r.txIndex, t + (a + rest));
    Bytes32Exact(t + (a + rest), r.txid, a + rest);
    U32Exact(a + rest, r.actionIndex, rest);
    if TakeStateRef(s) == Ok((r, rest)) {
      var s1 := TakeU32(s).value.1;
      var s2 := TakeU32(s1).value.1;
      var s3 := TakeBytes32(s2).value.1;
      U32Exact(s, r.height, s1);
      U32Exact(s1, r.txIndex, s2);
      Bytes32Exact(s2, r.txid, s3);
      assert TakeU32(s3).value == (r.actionIndex, rest);
      U32Exact(s3, r.actionIndex, rest);
    }
  }

  lemma ProofExact(s: Bytes, length: nat, proof: Proof, rest: Bytes)
    ensures TakeProof(s, length) == Ok((proof, rest)) <==> |proof| == length && s == proof + rest
  {
    if |s| >= length {
      assert s == s[..length] + s[length..];
    }
  }

  lemma TailExact(s: Bytes, network: Network, parameters: CodecParameters, proofBytes: nat, tail: Tail, rest: Bytes)
    ensures TakeTail(s, network, parameters, proofBytes) == Ok((tail, rest))
            <==> parameters.uaOn(network, tail.ua) && |tail.proof| == proofBytes
                 && s == EncodeTail(tail.ua, tail.actionIndex, tail.successorFutureNf, tail.proof) + rest
  {
    hide TakeUa, TakeU32, TakeField, TakeProof, BigEndian, LittleEndian, EncodeUa;
    var u, a, f := EncodeUa(tail.ua), BigEndian(tail.actionIndex, 4), LittleEndian(tail.successorFutureNf, 32);
    assert EncodeTail(tail.ua, tail.actionIndex, tail.successorFutureNf, tail.proof) + rest
        == u + (a + (f + (tail.proof + rest)));
    UaExact(s, network, parameters, tail.ua, a + (f + (tail.proof + rest)));
    U32Exact(a + (f + (tail.proof + rest)), tail.actionIndex, f + (tail.proof + rest));
    FieldExact(f + (tail.proof + rest), tail.successorFutureNf, tail.proof + rest);
    ProofExact(tail.proof + rest, proofBytes, tail.proof, rest);
    if TakeTail(s, network, parameters, proofBytes) == Ok((tail, rest)) {
      var s1 := TakeUa(s, network, parameters).value.1;
      var s2 := TakeU32(s1).value.1;
      var s3 := TakeField(s2).value.1;
      UaExact(s, network, parameters, tail.ua, s1);
      U32Exact(s1, tail.actionIndex, s2);
      FieldExact(s2, tail.successorFutureNf, s3);
      assert TakeProof(s3, proofBytes).value == (tail.proof, rest);
      ProofExact(s3, proofBytes, tail.proof, rest);
    }
  }

  // ---- whole operations ----

  /** What the types do not already say about an operation that a deployment can decode. */
  predicate Decodable(op: Operation, network: Network, parameters: CodecParameters) {
    !op.Commit? ==> parameters.uaOn(network, op.ua) && |op.proof| == parameters.ProofBytes(op)
  }

  function TailOf(op: Operation): Tail
    requires !op.Commit?
  {
    Tail(op.ua, op.actionIndex, op.successorFutureNf, op.proof)
  }

  function WireTail(op: Operation): Bytes
    requires !op.Commit?
  {
    EncodeTail(op.ua, op.actionIndex, op.successorFutureNf, op.proof)
  }

  lemma CommitExact(s: Bytes, op: Operation, rest: Bytes)
    requires op.Commit?
    ensures TakeCommit(s) == Ok((op, rest)) <==> s == LittleEndian(op.commitment, 32) + rest
  {
    hide TakeField, LittleEndian;
    FieldExact(s, op.commitment, rest);
    if TakeCommit(s) == Ok((op, rest)) {
      assert TakeField(s).value == (op.commitment, rest);
    }
  }

  lemma RevealExact(s: Bytes, network: Network, parameters: CodecParameters, op: Operation, rest: Bytes)
    requires op.Reveal?
    ensures TakeReveal(s, network, parameters) == Ok((op, rest))
            <==> Decodable(op, network, parameters)
                 && (s == EncodeName(op.name) + (EncodeCommitRef(op.commit) + WireTail(op)) + rest
                     || s == EncodeName(op.name + SUFFIX) + (EncodeCommitRef(op.commit) + WireTail(op)) + rest)
  {
    hide TakeName, TakeCommitRef, TakeTail, EncodeName, EncodeCommitRef, EncodeTail;
    var c, t := EncodeCommitRef(op.commit), WireTail(op);
    Regroup(EncodeName(op.name), c, t, rest);
    Regroup(EncodeName(op.name + SUFFIX), c, t, rest);
    NameExact(s, op.name, c + (t + rest));
    CommitRefExact(c + (t + rest), op.commit, t + rest);
    TailExact(t + rest, network, parameters, parameters.revealProofBytes, TailOf(op), rest);
    if TakeReveal(s, network, parameters) == Ok((op, rest)) {
      var s1 := TakeName(s).value.1;
      var s2 := TakeCommitRef(s1).value.1;
      NameExact(s, op.name, s1);
      CommitRefExact(s1, op.commit, s2);
      assert TakeTail(s2, network, parameters, parameters.revealProofBytes).value == (TailOf(op), rest);
      TailExact(s2, network, parameters, parameters.revealProofBytes, TailOf(op), rest);
    }
  }

  lemma Regroup(a: Bytes, b: Bytes, c: Bytes, d: Bytes)
    ensures a + (b + c) + d == a + (b + (c + d))
  {
  }

  lemma RefreshExact(s: Bytes, network: Network, parameters: CodecParameters, op: Operation, rest: Bytes)
    requires op.Refresh?
    ensures TakeRefresh(s, network, parameters) == Ok((op, rest))
            <==> Decodable(op, network, parameters)
                 && (s == EncodeName(op.name) + (EncodeStateRef(op.predecessor) + WireTail(op)) + rest
                     || s == EncodeName(op.name + SUFFIX) + (EncodeStateRef(op.predecessor) + WireTail(op)) + rest)
  {
    hide TakeName, TakeStateRef, TakeTail, EncodeName, EncodeStateRef, EncodeTail;
    var c, t := EncodeStateRef(op.predecessor), WireTail(op);
    Regroup(EncodeName(op.name), c, t, rest);
    Regroup(EncodeName(op.name + SUFFIX), c, t, rest);
    NameExact(s, op.name, c + (t + rest));
    StateRefExact(c + (t + rest), op.predecessor, t + rest);
    TailExact(t + rest, network, parameters, parameters.refreshProofBytes, TailOf(op), rest);
    if TakeRefresh(s, network, parameters) == Ok((op, rest)) {
      var s1 := TakeName(s).value.1;
      var s2 := TakeStateRef(s1).value.1;
      NameExact(s, op.name, s1);
      StateRefExact(s1, op.predecessor, s2);
      assert TakeTail(s2, network, parameters, parameters.refreshProofBytes).value == (TailOf(op), rest);
      TailExact(s2, network, parameters, parameters.refreshProofBytes, TailOf(op), rest);
    }
  }

  /** Reading an operation off the front succeeds on its wire form or its suffixed one, and on no other input. */
  lemma OperationExact(s: Bytes, network: Network, parameters: CodecParameters, op: Operation, rest: Bytes)
    ensures TakeOperation(s, network, parameters) == Ok((op, rest))
            <==> Decodable(op, network, parameters)
                 && (s == Wire(op) + rest || (!op.Commit? && s == SuffixedWire(op) + rest))
  {
    hide TakeCommit, TakeReveal, TakeRefresh, LittleEndian, EncodeName, EncodeCommitRef, EncodeStateRef, EncodeTail;
    if op.Commit? {
      FirstByte(s, op, [], rest);
    } else {
      FirstByte(s, op, op.name, rest);
      FirstByte(s, op, op.name + SUFFIX, rest);
    }
    hide Spelled;
    if s != [] {
      match op {
        case Commit(_) => CommitExact(s[1..], op, rest);
        case Reveal(_, _, _, _, _, _) => RevealExact(s[1..], network, parameters, op, rest);
        case Refresh(_, _, _, _, _, _) => RefreshExact(s[1..], network, parameters, op, rest);
      }
    }
  }

  function Tag(op: Operation): byte {
    if op.Commit? then COMMIT_TAG else if op.Reveal? then REVEAL_TAG else REFRESH_TAG
  }

  function Body(op: Operation, spelling: Bytes): Bytes
    requires |spelling| < 256
  {
    match op
    case Commit(commitment) => LittleEndian(commitment, 32)
    case Reveal(_, commit, _, _, _, _) => EncodeName(spelling) + (EncodeCommitRef(commit) + WireTail(op))
    case Refresh(_, predecessor, _, _, _, _) => EncodeName(spelling) + (EncodeStateRef(predecessor) + WireTail(op))
  }

  /** The wire form is the tag byte and then the body. */
  lemma FirstByte(s: Bytes, op: Operation, spelling: Bytes, rest: Bytes)
    requires |spelling| < 256
    ensures s == Spelled(op, spelling) + rest
            <==> s != [] && s[0] == Tag(op) && s[1..] == Body(op, spelling) + rest
  {
    hide LittleEndian, EncodeName, EncodeCommitRef, EncodeStateRef, EncodeTail;
    assert Spelled(op, spelling) == [Tag(op)] + Body(op, spelling);
    hide Spelled, Body;
    if s != [] {
      assert s == [s[0]] + s[1..];
    }
    assert [Tag(op)] + Body(op, spelling) + rest == [Tag(op)] + (Body(op, spelling) + rest);
  }

  /**
   The byte strings that decode to an operation are exactly its wire form and, for a REVEAL or a
   REFRESH, the one whose name field carries an extra ".zec".
   */
  lemma DecodesExactly(s: Bytes, network: Network, parameters: CodecParameters, op: Operation)
    requires parameters.Valid()
    ensures Decoded(s, network, parameters) == Ok(op)
            <==> Decodable(op, network, parameters) && (s == Wire(op) || (!op.Commit? && s == SuffixedWire(op)))
  {
    hide TakeOperation, Wire, SuffixedWire, Decodable;
    OperationExact(s, network, parameters, op, []);
    assert Wire(op) + [] == Wire(op);
    if !op.Commit? {
      assert SuffixedWire(op) + [] == SuffixedWire(op);
    }
    if Decoded(s, network, parameters) == Ok(op) {
      assert TakeOperation(s, network, parameters).value == (op, []);
    }
  }

  /** Decoding an encoding gives the operation back, if its address belongs to the network. */
  lemma RoundTrip(op: Operation, network: Network, parameters: CodecParameters)
    requires Encoded(op, parameters).Ok?
    requires !op.Commit? ==> parameters.uaOn(network, op.ua)
    ensures Decoded(Encoded(op, parameters).value, network, parameters) == Ok(op)
  {
    hide Decoded, Wire;
    DecodesExactly(Wire(op), network, parameters, op);
  }

  /**
   Encoding a decoded operation gives the same bytes back exactly when they fit the payload bound and
   the name was written bare: its length byte is the length of the name.
   */
  lemma ReencodesIff(s: Bytes, network: Network, parameters: CodecParameters)
    requires Decoded(s, network, parameters).Ok?
    ensures
      var op := Decoded(s, network, parameters).value;
      Encoded(op, parameters) == Ok(s)
      <==> |s| <= parameters.maxPayload && (op.Commit? || (|s| > 1 && s[1] as nat == |op.name|))
  {
    var op := Decoded(s, network, parameters).value;
    DecodesExactly(s, network, parameters, op);
    if !op.Commit? {
      LengthByte(op, op.name);
      LengthByte(op, op.name + SUFFIX);
    }
    hide TakeOperation, Spelled, Decoded;
  }

  /** The suffixed form of any decodable REVEAL or REFRESH decodes to it but is not what it encodes to. */
  lemma SuffixNotReproduced(op: Operation, network: Network, parameters: CodecParameters)
    requires !op.Commit? && parameters.Valid() && Decodable(op, network, parameters)
    ensures Decoded(SuffixedWire(op), network, parameters) == Ok(op)
    ensures Encoded(op, parameters) != Ok(SuffixedWire(op))
  {
    hide Spelled, Decoded;
    DecodesExactly(SuffixedWire(op), network, parameters, op);
    LengthByte(op, op.name + SUFFIX);
    ReencodesIff(SuffixedWire(op), network, parameters);
  }

  lemma LengthByte(op: Operation, spelling: Bytes)
    requires !op.Commit? && |spelling| < 256
    ensures |Spelled(op, spelling)| > 1 && Spelled(op, spelling)[1] == |spelling| as byte
  {
    hide EncodeCommitRef, EncodeStateRef, EncodeTail;
    assert Spelled(op, spelling) == [Tag(op)] + Body(op, spelling);
    assert Body(op, spelling)[0] == EncodeName(spelling)[0];
  }

  /** No byte string that decodes is a proper prefix of another that does. */
  lemma PrefixFree(s: Bytes, more: Bytes, network: Network, parameters: CodecParameters)
    requires Decoded(s, network, parameters).Ok? && Decoded(s + more, network, parameters).Ok?
    ensures more == []
  {
    hide TakeOperation, Wire, SuffixedWire, Decodable;
    var op := Decoded(s, network, parameters).value;
    assert TakeOperation(s, network, parameters).value == (op, []);
    OperationExact(s, network, parameters, op, []);
    OperationExact(s + more, network, parameters, op, more);
    assert Wire(op) + [] == Wire(op);
    if !op.Commit? {
      assert SuffixedWire(op) + [] == SuffixedWire(op);
    }
  }
}
