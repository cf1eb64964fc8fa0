/** The wire form byte by byte: which offset holds which part of an operation, and in which byte order. */
module Layout {
  import opened Collections
  import opened Protocol
  import opened Bytes
  import opened Codec

  /** The byte of a number that has `i` less significant bytes below it. */
  function Digit(n: nat, i: nat): nat {
    if i == 0 then n % 256 else Digit(n / 256, i - 1)
  }

  /** The bytes are the number, most significant byte first. */
  predicate IsBigEndian(s: Bytes, n: nat) {
    forall i :: 0 <= i < |s| ==> s[i] as nat == Digit(n, |s| - 1 - i)
  }

  /** The bytes are the number, least significant byte first. */
  predicate IsLittleEndian(s: Bytes, n: nat) {
    forall i :: 0 <= i < |s| ==> s[i] as nat == Digit(n, i)
  }

  predicate BigEndianAt(v: Bytes, at: nat, width: nat, n: nat) {
    at + width <= |v| && IsBigEndian(v[at..at + width], n)
  }

  predicate LittleEndianAt(v: Bytes, at: nat, width: nat, n: nat) {
    at + width <= |v| && IsLittleEndian(v[at..at + width], n)
  }

  predicate BytesAt(v: Bytes, at: nat, value: Bytes) {
    at + |value| <= |v| && v[at..at + |value|] == value
  }

  /** The part that REVEAL and REFRESH share: address, action, nullifier and proof, to the end of the bytes. */
  predicate TailAt(v: Bytes, at: nat, ua: Ua, actionIndex: u32, successorFutureNf: FieldElement, proof: Proof) {
    var u := |ua|;
    && |v| == at + 2 + u + 4 + 32 + |proof|
    && BigEndianAt(v, at, 2, u)
    && BytesAt(v, at + 2, ua)
    && BigEndianAt(v, at + 2 + u, 4, actionIndex)
    && LittleEndianAt(v, at + 6 + u, 32, successorFutureNf)
    && BytesAt(v, at + 38 + u, proof)
  }

  /** The layout of an operation whose name is written with the given spelling. */
  predicate LaidOut(v: Bytes, op: Operation, spelling: Bytes) {
    var n := |spelling|;
    match op
    case Commit(commitment) =>
      |v| == 33 && v[0] == 0 && LittleEndianAt(v, 1, 32, commitment)
    case Reveal(_, commit, ua, actionIndex, nf, proof) =>
      && |v| > 1 && v[0] == 1 && v[1] as nat == n
      && BytesAt(v, 2, spelling)
      && BigEndianAt(v, 2 + n, 4, commit.height)
      && BigEndianAt(v, 6 + n, 4, commit.txIndex)
      && BigEndianAt(v, 10 + n, 32, commit.txid)
      && TailAt(v, 42 + n, ua, actionIndex, nf, proof)
    case Refresh(_, predecessor, ua, actionIndex, nf, proof) =>
      && |v| > 1 && v[0] == 2 && v[1] as nat == n
      && BytesAt(v, 2, spelling)
      && BigEndianAt(v, 2 + n, 4, predecessor.height)
      && BigEndianAt(v, 6 + n, 4, predecessor.txIndex)
      && BigEndianAt(v, 10 + n, 32, predecessor.txid)
      && BigEndianAt(v, 42 + n, 4, predecessor.actionIndex)
      && TailAt(v, 46 + n, ua, actionIndex, nf, proof)
  }

  // ---- numbers ----

  lemma {:induction false} BigEndianByte(n: nat, k: nat, i: nat)
    requires i < k
    ensures BigEndian(n, k)[i] as nat == Digit(n, k - 1 - i)
  {
    if i < k - 1 {
      BigEndianByte(n / 256, k - 1, i);
    }
  }

  lemma {:induction false} LittleEndianByte(n: nat, k: nat, i: nat)
    requires i < k
    ensures LittleEndian(n, k)[i] as nat == Digit(n, i)
  {
    if i > 0 {
      LittleEndianByte(n / 256, k - 1, i - 1);
    }
  }

  lemma BigEndianFound(a: Bytes, n: nat, k: nat, rest: Bytes)
    ensures BigEndianAt(a + (BigEndian(n, k) + rest), |a|, k, n)
  {
    var v := a + (BigEndian(n, k) + rest);
    assert v[|a|..|a| + k] == BigEndian(n, k);
    forall i | 0 <= i < k ensures BigEndian(n, k)[i] as nat == Digit(n, k - 1 - i) {
      BigEndianByte(n, k, i);
    }
  }

  lemma LittleEndianFound(a: Bytes, n: nat, k: nat, rest: Bytes)
    ensures LittleEndianAt(a + (LittleEndian(n, k) + rest), |a|, k, n)
  {
    var v := a + (LittleEndian(n, k) + rest);
    assert v[|a|..|a| + k] == LittleEndian(n, k);
    forall i | 0 <= i < k ensures LittleEndian(n, k)[i] as nat == Digit(n, i) {
      LittleEndianByte(n, k, i);
    }
  }

  lemma BytesFound(a: Bytes, value: Bytes, rest: Bytes)
    ensures BytesAt(a + (value + rest), |a|, value)
  {
  }

  /** The same number at the same place is the same bytes. */
  lemma SameNumber(v: Bytes, w: Bytes, at: nat, width: nat, n: nat)
    requires (BigEndianAt(v, at, width, n) && BigEndianAt(w, at, width, n))
             || (LittleEndianAt(v, at, width, n) && LittleEndianAt(w, at, width, n))
    ensures at + width <= |v| && at + width <= |w| && v[at..at + width] == w[at..at + width]
  {
    var a, b := v[at..at + width], w[at..at + width];
    forall i | 0 <= i < width ensures a[i] == b[i] {
      assert a[i] as nat == b[i] as nat;
    }
  }

  // ---- the tail ----

  lemma TailFound(a: Bytes, ua: Ua, actionIndex: u32, nf: FieldElement, proof: Proof)
    ensures TailAt(a + EncodeTail(ua, actionIndex, nf, proof), |a|, ua, actionIndex, nf, proof)
  {
    var u := |ua|;
    var size, action, field := BigEndian(u, 2), BigEndian(actionIndex, 4), LittleEndian(nf, 32);
    var v := a + EncodeTail(ua, actionIndex, nf, proof);
    assert v == a + (size + (ua + (action + (field + proof))));
    BigEndianFound(a, u, 2, ua + (action + (field + proof)));
    assert v == (a + size) + (ua + (action + (field + proof)));
    BytesFound(a + size, ua, action + (field + proof));
    assert v == (a + size + ua) + (action + (field + proof));
    BigEndianFound(a + size + ua, actionIndex, 4, field + proof);
    assert v == (a + size + ua + action) + (field + proof);
    LittleEndianFound(a + size + ua + action, nf, 32, proof);
    assert v == (a + size + ua + action + field) + (proof + []);
    BytesFound(a + size + ua + action + field, proof, []);
  }

  lemma SameTail(v: Bytes, w: Bytes, at: nat, ua: Ua, actionIndex: u32, nf: FieldElement, proof: Proof)
    requires TailAt(v, at, ua, actionIndex, nf, proof) && TailAt(w, at, ua, actionIndex, nf, proof)
    ensures v[at..] == w[at..]
  {
    var u := |ua|;
    SameNumber(v, w, at, 2, u);
    SameNumber(v, w, at + 2 + u, 4, actionIndex);
    SameNumber(v, w, at + 6 + u, 32, nf);
    hide BigEndianAt, LittleEndianAt;
    PartsJoin(v, w, at, at + 2, at + 2 + u);
    PartsJoin(v, w, at, at + 2 + u, at + 6 + u);
    PartsJoin(v, w, at, at + 6 + u, at + 38 + u);
    PartsJoin(v, w, at, at + 38 + u, |v|);
  }

  lemma PartsJoin(v: Bytes, w: Bytes, a: nat, b: nat, c: nat)
    requires a <= b <= c <= |v| && c <= |w| && v[a..b] == w[a..b] && v[b..c] == w[b..c]
    ensures v[a..c] == w[a..c]
  {
    assert v[a..c] == v[a..b] + v[b..c] && w[a..c] == w[a..b] + w[b..c];
  }

  // ---- whole operations ----

  lemma SpelledLaidOut(op: Operation, spelling: Bytes)
    requires |spelling| < 256
    ensures LaidOut(Spelled(op, spelling), op, spelling)
  {
    match op
    case Commit(commitment) =>
      LittleEndianFound([COMMIT_TAG], commitment, 32, []);
      assert [COMMIT_TAG] + (LittleEndian(commitment, 32) + []) == Spelled(op, spelling);
    case Reveal(_, commit, ua, actionIndex, nf, proof) => RevealLaidOut(op, spelling);
    case Refresh(_, predecessor, ua, actionIndex, nf, proof) => RefreshLaidOut(op, spelling);
  }

  lemma RevealLaidOut(op: Operation, spelling: Bytes)
    requires op.Reveal? && |spelling| < 256
    ensures LaidOut(Spelled(op, spelling), op, spelling)
  {
    hide BigEndianAt, LittleEndianAt, TailAt, EncodeTail;
    var c := op.commit;
    var front: Bytes := [REVEAL_TAG, |spelling| as byte];
    var height, index, txid := BigEndian(c.height, 4), BigEndian(c.txIndex, 4), BigEndian(c.txid, 32);
    var tail := EncodeTail(op.ua, op.actionIndex, op.successorFutureNf, op.proof);
    var v := Spelled(op, spelling);
    assert v == front + (spelling + (height + (index + (txid + tail))));
    BytesFound(front, spelling, height + (index + (txid + tail)));
    assert v == (front + spelling) + (height + (index + (txid + tail)));
    BigEndianFound(front + spelling, c.height, 4, index + (txid + tail));
    assert v == (front + spelling + height) + (index + (txid + tail));
    BigEndianFound(front + spelling + height, c.txIndex, 4, txid + tail);
    assert v == (front + spelling + height + index) + (txid + tail);
    BigEndianFound(front + spelling + height + index, c.txid, 32, tail);
    assert v == (front + spelling + height + index + txid) + tail;
    TailFound(front + spelling + height + index + txid, op.ua, op.actionIndex, op.successorFutureNf, op.proof);
  }

  lemma RefreshLaidOut(op: Operation, spelling: Bytes)
    requires op.Refresh? && |spelling| < 256
    ensures LaidOut(Spelled(op, spelling), op, spelling)
  {
    hide BigEndianAt, LittleEndianAt, TailAt, EncodeTail;
    var p := op.predecessor;
    var front: Bytes := [REFRESH_TAG, |spelling| as byte];
    var height, index, txid := BigEndian(p.height, 4), BigEndian(p.txIndex, 4), BigEndian(p.txid, 32);
    var action := BigEndian(p.actionIndex, 4);
    var tail := EncodeTail(op.ua, op.actionIndex, op.successorFutureNf, op.proof);
    var v := Spelled(op, spelling);
    assert v == front + (spelling + (height + (index + (txid + (action + tail)))));
    BytesFound(front, spelling, height + (index + (txid + (action + tail))));
    assert v == (front + spelling) + (height + (index + (txid + (action + tail))));
    BigEndianFound(front + spelling, p.height, 4, index + (txid + (action + tail)));
    assert v == (front + spelling + height) + (index + (txid + (action + tail)));
    BigEndianFound(front + spelling + height, p.txIndex, 4, txid + (action + tail));
    assert v == (front + spelling + height + index) + (txid + (action + tail));
    BigEndianFound(front + spelling + height + index, p.txid, 32, action + tail);
    assert v == (front + spelling + height + index + txid) + (action + tail);
    BigEndianFound(front + spelling + height + index + txid, p.actionIndex, 4, tail);
    assert v == (front + spelling + height + index + txid + action) + tail;
    TailFound(front + spelling + height + index + txid + action, op.ua, op.actionIndex, op.successorFutureNf, op.proof);
  }

  /** The layout leaves no byte open. */
  lemma LayoutDetermines(v: Bytes, w: Bytes, op: Operation, spelling: Bytes)
    requires LaidOut(v, op, spelling) && LaidOut(w, op, spelling)
    ensures v == w
  {
    hide BigEndianAt, LittleEndianAt, TailAt;
    var n := |spelling|;
    match op {
      case Commit(commitment) =>
        SameNumber(v, w, 1, 32, commitment);
        assert v == [v[0]] + v[1..33] && w == [w[0]] + w[1..33];
      case Reveal(_, commit, ua, actionIndex, nf, proof) =>
        SameFront(v, w, spelling, commit.height, commit.txIndex, commit.txid);
        SameTail(v, w, 42 + n, ua, actionIndex, nf, proof);
        assert v == v[..42 + n] + v[42 + n..] && w == w[..42 + n] + w[42 + n..];
      case Refresh(_, predecessor, ua, actionIndex, nf, proof) =>
        SameFront(v, w, spelling, predecessor.height, predecessor.txIndex, predecessor.txid);
        SameNumber(v, w, 42 + n, 4, predecessor.actionIndex);
        PartsJoin(v, w, 0, 42 + n, 46 + n);
        SameTail(v, w, 46 + n, ua, actionIndex, nf, proof);
        assert v == v[..46 + n] + v[46 + n..] && w == w[..46 + n] + w[46 + n..];
    }
  }

  lemma SameFront(v: Bytes, w: Bytes, spelling: Bytes, height: u32, txIndex: u32, txid: Bytes32)
    requires |v| > 1 && |w| > 1 && v[0] == w[0] && v[1] == w[1] && BytesAt(v, 2, spelling) && BytesAt(w, 2, spelling)
    requires BigEndianAt(v, 2 + |spelling|, 4, height) && BigEndianAt(w, 2 + |spelling|, 4, height)
    requires BigEndianAt(v, 6 + |spelling|, 4, txIndex) && BigEndianAt(w, 6 + |spelling|, 4, txIndex)
    requires BigEndianAt(v, 10 + |spelling|, 32, txid) && BigEndianAt(w, 10 + |spelling|, 32, txid)
    ensures 42 + |spelling| <= |v| && 42 + |spelling| <= |w| && v[..42 + |spelling|] == w[..42 + |spelling|]
  {
    var n := |spelling|;
    SameNumber(v, w, 2 + n, 4, height);
    SameNumber(v, w, 6 + n, 4, txIndex);
    SameNumber(v, w, 10 + n, 32, txid);
    hide BigEndianAt;
    assert v[0..2] == [v[0], v[1]] == w[0..2];
    PartsJoin(v, w, 0, 2, 2 + n);
    PartsJoin(v, w, 0, 2 + n, 6 + n);
    PartsJoin(v, w, 0, 6 + n, 10 + n);
    PartsJoin(v, w, 0, 10 + n, 42 + n);
  }

  /** An encoding has the documented layout, with the bare name. */
  lemma EncodedLayout(op: Operation, parameters: CodecParameters)
    requires Encoded(op, parameters).Ok?
    ensures LaidOut(Encoded(op, parameters).value, op, if op.Commit? then [] else op.name)
  {
    hide LaidOut, Spelled;
    SpelledLaidOut(op, if op.Commit? then [] else op.name);
  }

  /**
   Bytes decode to an operation exactly when they have its layout, with the name written bare or with ".zec",
   and its address and proof length are those of the network and the deployment.
   */
  lemma DecodedLayoutIff(s: Bytes, network: Network, parameters: CodecParameters, op: Operation)
    requires parameters.Valid()
    ensures
      Decoded(s, network, parameters) == Ok(op)
      <==> && (!op.Commit? ==>
                 parameters.uaOn(network, op.ua)
                 && |op.proof| == if op.Reveal? then parameters.revealProofBytes else parameters.refreshProofBytes)
           && (if op.Commit? then LaidOut(s, op, [])
               else LaidOut(s, op, op.name) || LaidOut(s, op, op.name + SUFFIX))
  {
    hide LaidOut, Spelled, Decoded;
    DecodesExactly(s, network, parameters, op);
    if op.Commit? {
      LaidOutIff(s, op, []);
    } else {
      LaidOutIff(s, op, op.name);
      LaidOutIff(s, op, op.name + SUFFIX);
    }
  }

  lemma LaidOutIff(s: Bytes, op: Operation, spelling: Bytes)
    requires |spelling| < 256
    ensures LaidOut(s, op, spelling) <==> s == Spelled(op, spelling)
  {
    hide LaidOut, Spelled;
    SpelledLaidOut(op, spelling);
    if LaidOut(s, op, spelling) {
      LayoutDetermines(s, Spelled(op, spelling), op, spelling);
    }
  }

  /** The name in any decoded bytes is read from the length byte after the tag. */
  lemma DecodedName(s: Bytes, network: Network, parameters: CodecParameters)
    requires Decoded(s, network, parameters).Ok? && !Decoded(s, network, parameters).value.Commit?
    ensures |s| > 1 && 2 + s[1] as nat <= |s|
    ensures
      var op, written := Decoded(s, network, parameters).value, s[2..2 + s[1] as nat];
      LaidOut(s, op, written) && (written == op.name || written == op.name + SUFFIX)
  {
    assert parameters.Valid();
    hide Decoded, BigEndianAt, TailAt;
    DecodedLayoutIff(s, network, parameters, Decoded(s, network, parameters).value);
  }

  /** The size of an encoding, and exactly when there is one. */
  lemma EncodedIff(op: Operation, parameters: CodecParameters)
    ensures
      var size := match op
                  case Commit(_) => 33
                  case Reveal(name, _, ua, _, _, proof) => 1 + (1 + |name|) + 40 + (2 + |ua|) + 4 + 32 + |proof|
                  case Refresh(name, _, ua, _, _, proof) => 1 + (1 + |name|) + 44 + (2 + |ua|) + 4 + 32 + |proof|;
      var length := if op.Refresh? then parameters.refreshProofBytes else parameters.revealProofBytes;
      var r := Encoded(op, parameters);
      && (r.Ok? ==> |r.value| == size)
      && (if parameters.revealProofBytes > 14_890 || parameters.refreshProofBytes > 14_886 then r == Err(TooLarge)
          else if !op.Commit? && |op.proof| != length then r == Err(InvalidProofLength)
          else if size > parameters.maxPayload then r == Err(TooLarge)
          else r.Ok?)
  {
    hide BigEndianAt, LittleEndianAt;
    SpelledLaidOut(op, if op.Commit? then [] else op.name);
  }
}
