/** Which error the decoder reports for which bytes, told by their offsets. */
module Refusals {
  import opened Collections
  import opened Protocol
  import opened Bytes
  import opened Codec

  // ---- the first fault ----

  /** The first fault of bytes read as an operation, if any. */
  function FirstFault(s: Bytes, network: Network, parameters: CodecParameters): Option<CodecError> {
    if parameters.revealProofBytes > 14_890 || parameters.refreshProofBytes > 14_886 then Some(TooLarge)
    else if s == [] then Some(Truncated)
    else if s[0] == 0 then CommitFault(s)
    else if s[0] == 1 then NamedFault(s, 40, network, parameters, parameters.revealProofBytes)
    else if s[0] == 2 then NamedFault(s, 44, network, parameters, parameters.refreshProofBytes)
    else Some(InvalidTag)
  }

  /** The value after the tag must be a nonzero field element. */
  function CommitFault(s: Bytes): Option<CodecError> {
    if |s| < 33 then Some(Truncated)
    else if !(0 < FromLittleEndian(s[1..33]) < PALLAS_P) then Some(InvalidField)
    else if |s| > 33 then Some(TrailingBytes)
    else None
  }

  /** After the tag: a length byte, so many bytes of name, and a reference of `width` bytes. */
  function NamedFault(s: Bytes, width: nat, network: Network, parameters: CodecParameters, proofBytes: nat)
    : Option<CodecError>
  {
    if |s| < 2 || |s| < 2 + s[1] as nat then Some(Truncated)
    else if ParseName(s[2..2 + s[1] as nat]).None? then Some(InvalidName)
    else TailFault(s, 2 + s[1] as nat + width, network, parameters, proofBytes)
  }

  /** The length of the address whose two length bytes are at the offset. */
  function UaLength(s: Bytes, at: nat): nat
    requires at + 2 <= |s|
  {
    s[at] as nat * 256 + s[at + 1] as nat
  }

  /** From the offset: the address, four bytes of action index, a field element and the proof. */
  function TailFault(s: Bytes, at: nat, network: Network, parameters: CodecParameters, proofBytes: nat)
    : Option<CodecError>
  {
    if |s| < at + 2 || |s| < at + 2 + UaLength(s, at) then Some(Truncated)
    else
      var u := UaLength(s, at);
      if !Accepted(s[at + 2..at + 2 + u], network, parameters) then Some(InvalidUa)
      else if |s| < at + 38 + u then Some(Truncated)
      else if FromLittleEndian(s[at + 6 + u..at + 38 + u]) >= PALLAS_P then Some(InvalidField)
      else if |s| < at + 38 + u + proofBytes then Some(InvalidProofLength)
      else if |s| > at + 38 + u + proofBytes then Some(TrailingBytes)
      else None
  }

  predicate Accepted(value: Bytes, network: Network, parameters: CodecParameters) {
    0 < |value| <= MAX_UA_BYTES && parameters.uaOn(network, value)
  }

  // ---- the cursor at an offset ----

  lemma TakeAt(s: Bytes, a: nat, n: nat)
    requires a <= |s|
    ensures Take(s[a..], n) == if |s| < a + n then Err(Truncated) else Ok((s[a..a + n], s[a + n..]))
  {
    if a + n <= |s| {
      assert s[a..][..n] == s[a..a + n] && s[a..][n..] == s[a + n..];
    }
  }

  /** A read that took `width` bytes at the offset, or found fewer. */
  predicate Fixed<T(==)>(s: Bytes, a: nat, width: nat, r: Parsed<T>)
    requires a <= |s|
  {
    if |s| < a + width then r == Err(Truncated) else r.Ok? && r.value.1 == s[a + width..]
  }

  lemma U32At(s: Bytes, a: nat)
    requires a <= |s|
    ensures Fixed(s, a, 4, TakeU32(s[a..]))
  {
    TakeAt(s, a, 4);
  }

  lemma CommitRefAt(s: Bytes, a: nat)
    requires a <= |s|
    ensures Fixed(s, a, 40, TakeCommitRef(s[a..]))
  {
    hide FromBigEndian;
    TakeAt(s, a, 4);
    if a + 4 <= |s| {
      TakeAt(s, a + 4, 4);
      if a + 8 <= |s| {
        TakeAt(s, a + 8, 32);
      }
    }
  }

  lemma StateRefAt(s: Bytes, a: nat)
    requires a <= |s|
    ensures Fixed(s, a, 44, TakeStateRef(s[a..]))
  {
    hide FromBigEndian;
    TakeAt(s, a, 4);
    if a + 4 <= |s| {
      TakeAt(s, a + 4, 4);
      if a + 8 <= |s| {
        TakeAt(s, a + 8, 32);
        if a + 40 <= |s| {
          TakeAt(s, a + 40, 4);
        }
      }
    }
  }

  lemma OneDigit(b: byte)
    ensures FromBigEndian([b]) == b as nat
  {
    assert FromBigEndian([]) == 0;
  }

  lemma NameAt(s: Bytes)
    requires s != []
    ensures
      var r := TakeName(s[1..]);
      if |s| < 2 || |s| < 2 + s[1] as nat then r == Err(Truncated)
      else if ParseName(s[2..2 + s[1] as nat]).None? then r == Err(InvalidName)
      else r.Ok? && r.value.1 == s[2 + s[1] as nat..]
  {
    hide ParseName;
    TakeAt(s, 1, 1);
    if |s| >= 2 {
      OneDigit(s[1]);
      assert s[1..2] == [s[1]];
      TakeAt(s, 2, s[1] as nat);
    }
  }

  lemma UaAt(s: Bytes, at: nat, network: Network, parameters: CodecParameters)
    requires at <= |s|
    ensures
      var r := TakeUa(s[at..], network, parameters);
      if |s| < at + 2 || |s| < at + 2 + UaLength(s, at) then r == Err(Truncated)
      else
        var u := UaLength(s, at);
        if !Accepted(s[at + 2..at + 2 + u], network, parameters) then r == Err(InvalidUa)
        else r.Ok? && r.value.1 == s[at + 2 + u..]
  {
    TakeAt(s, at, 2);
    if at + 2 <= |s| {
      var digits := s[at..at + 2];
      assert digits[..1] == [s[at]] && digits[1] == s[at + 1];
      OneDigit(s[at]);
      assert FromBigEndian(digits) == UaLength(s, at);
      TakeAt(s, at + 2, UaLength(s, at));
    }
  }

  /** What is read decides the fault: an error is the fault, and bytes left over are one. */
  predicate Decides<T(==)>(r: Parsed<T>, fault: Option<CodecError>) {
    fault == match r
             case Err(e) => Some(e)
             case Ok((_, rest)) => if rest == [] then None else Some(TrailingBytes)
  }

  lemma TailDecides(s: Bytes, at: nat, network: Network, parameters: CodecParameters, proofBytes: nat)
    requires at <= |s|
    ensures Decides(TakeTail(s[at..], network, parameters, proofBytes),
                    TailFault(s, at, network, parameters, proofBytes))
  {
    hide TakeUa, TakeU32, FromLittleEndian, Accepted;
    UaAt(s, at, network, parameters);
    if |s| >= at + 2 && |s| >= at + 2 + UaLength(s, at) {
      var b := at + 2 + UaLength(s, at);
      U32At(s, b);
      if |s| >= b + 4 {
        TakeAt(s, b + 4, 32);
        if |s| >= b + 36 {
          assert |s[b + 36..]| == |s| - (b + 36);
        }
      }
    }
  }

  lemma RevealDecides(s: Bytes, network: Network, parameters: CodecParameters)
    requires s != []
    ensures Decides(TakeReveal(s[1..], network, parameters),
                    NamedFault(s, 40, network, parameters, parameters.revealProofBytes))
  {
    hide TakeName, TakeCommitRef, TakeTail, ParseName;
    NameAt(s);
    if |s| >= 2 && |s| >= 2 + s[1] as nat {
      var a := 2 + s[1] as nat;
      CommitRefAt(s, a);
      if |s| >= a + 40 {
        TailDecides(s, a + 40, network, parameters, parameters.revealProofBytes);
      }
    }
  }

  lemma RefreshDecides(s: Bytes, network: Network, parameters: CodecParameters)
    requires s != []
    ensures Decides(TakeRefresh(s[1..], network, parameters),
                    NamedFault(s, 44, network, parameters, parameters.refreshProofBytes))
  {
    hide TakeName, TakeStateRef, TakeTail, ParseName;
    NameAt(s);
    if |s| >= 2 && |s| >= 2 + s[1] as nat {
      var a := 2 + s[1] as nat;
      StateRefAt(s, a);
      if |s| >= a + 44 {
        TailDecides(s, a + 44, network, parameters, parameters.refreshProofBytes);
      }
    }
  }

  // ---- the decoder's answer ----

  /** Bytes decode exactly when they have no fault; otherwise the first one is reported. */
  lemma DecodedIff(s: Bytes, network: Network, parameters: CodecParameters)
    ensures
      var r, fault := Decoded(s, network, parameters), FirstFault(s, network, parameters);
      if fault.None? then r.Ok? else r == Err(fault.value)
  {
    hide TakeReveal, TakeRefresh, NamedFault;
    if s != [] {
      TakeAt(s, 1, 32);
      RevealDecides(s, network, parameters);
      RefreshDecides(s, network, parameters);
      hide FromLittleEndian;
    }
  }

  /** Every proper prefix of bytes that decode is refused, for its proof if only proof bytes are missing. */
  lemma PrefixRefused(s: Bytes, p: Bytes, network: Network, parameters: CodecParameters)
    requires p < s && Decoded(s, network, parameters).Ok?
    ensures
      var op := Decoded(s, network, parameters).value;
      Decoded(p, network, parameters)
      == Err(if !op.Commit? && |p| + parameters.ProofBytes(op) >= |s| then InvalidProofLength else Truncated)
  {
    hide Decoded, NamedFault;
    DecodedIff(s, network, parameters);
    DecodedIff(p, network, parameters);
    KindByTag(s, network, parameters);
    if p != [] {
      CutAndExtended(s, p, 40, network, parameters, parameters.revealProofBytes);
      CutAndExtended(s, p, 44, network, parameters, parameters.refreshProofBytes);
    } else if s[0] != 0 {
      NamedSize(s, if s[0] == 1 then 40 else 44, network, parameters,
                if s[0] == 1 then parameters.revealProofBytes else parameters.refreshProofBytes);
    }
    hide FromLittleEndian;
  }

  lemma KindByTag(s: Bytes, network: Network, parameters: CodecParameters)
    requires Decoded(s, network, parameters).Ok?
    ensures
      var op := Decoded(s, network, parameters).value;
      s != [] && s[0] == match op
                         case Commit(_) => 0
                         case Reveal(_, _, _, _, _, _) => 1
                         case Refresh(_, _, _, _, _, _) => 2
  {
    hide TakeReveal, TakeRefresh, TakeField;
  }

  lemma NamedSize(s: Bytes, width: nat, network: Network, parameters: CodecParameters, proofBytes: nat)
    requires s != [] && NamedFault(s, width, network, parameters, proofBytes).None?
    ensures proofBytes < |s|
  {
    hide ParseName, FromLittleEndian, Accepted;
  }

  /** Bytes without a fault, compared with a prefix of theirs. */
  lemma CutAndExtended(s: Bytes, p: Bytes, width: nat, network: Network, parameters: CodecParameters, proofBytes: nat)
    requires [] < p < s
    ensures NamedFault(s, width, network, parameters, proofBytes).None? ==>
      NamedFault(p, width, network, parameters, proofBytes)
      == Some(if |p| + proofBytes >= |s| then InvalidProofLength else Truncated)
    ensures NamedFault(p, width, network, parameters, proofBytes).None? ==>
      NamedFault(s, width, network, parameters, proofBytes) == Some(TrailingBytes)
  {
    hide ParseName, FromLittleEndian, Accepted;
    if |p| >= 2 && |p| >= 2 + s[1] as nat {
      var at := 2 + s[1] as nat + width;
      assert p[2..at - width] == s[2..at - width];
      if |p| >= at + 2 && |p| >= at + 2 + UaLength(s, at) {
        var u := UaLength(s, at);
        assert p[at + 2..at + 2 + u] == s[at + 2..at + 2 + u];
        assert |p| >= at + 38 + u ==> p[at + 6 + u..at + 38 + u] == s[at + 6 + u..at + 38 + u];
      }
    }
  }

  /** Bytes after an operation are refused as such. */
  lemma ExtensionRefused(s: Bytes, more: Bytes, network: Network, parameters: CodecParameters)
    requires Decoded(s, network, parameters).Ok? && more != []
    ensures Decoded(s + more, network, parameters) == Err(TrailingBytes)
  {
    hide Decoded, NamedFault;
    var t := s + more;
    DecodedIff(s, network, parameters);
    DecodedIff(t, network, parameters);
    CutAndExtended(t, s, 40, network, parameters, parameters.revealProofBytes);
    CutAndExtended(t, s, 44, network, parameters, parameters.refreshProofBytes);
    assert |s| >= 33 ==> t[1..33] == s[1..33];
    hide FromLittleEndian;
  }
}
