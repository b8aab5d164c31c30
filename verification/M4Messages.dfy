/** The M3 and M4 commitments of LIP 005 as coinbase scripts, and their parsers. */
module M4Messages {
  import opened Numerals
  import opened Wrappers
  import LittleEndian
  import Hex

  const OP_RETURN: Byte := 0x6a
  const M3_COMMITMENT_HEADER := 0xD45AA943
  const M4_COMMITMENT_HEADER := 0xD77D1776
  const VOTE_ABSTAIN := 0xFFFF
  const VOTE_ALARM := 0xFFFE

  /** An upvote names a bundle by its place among the pending bundles of the slot. */
  datatype VoteKind = Abstain | Alarm | Upvote(index: nat)

  datatype Vote = Vote(slot: Byte, kind: VoteKind)

  datatype M4Message = M4Message(version: Byte, votes: seq<Vote>)

  datatype M3Message = M3Message(slot: Byte, bundleHash: string)

  datatype ParseError = TooShort | BadLength | NotOpReturn | InvalidHeader | OddVector
    | UnsupportedVersion(version: Byte)

  // ---------------------------------------------------------------- vote vectors

  function Kind01(b: Byte): VoteKind {
    if b == 0xFF then Abstain else if b == 0xFE then Alarm else Upvote(b)
  }

  function Kind02(value: nat): VoteKind {
    if value == VOTE_ABSTAIN then Abstain else if value == VOTE_ALARM then Alarm else Upvote(value)
  }

  /** uint8(i): the slot counter of the source wraps. */
  function Slot(i: nat): Byte { i % 256 }

  function Word(low: Byte, high: Byte): nat {
    var h: int := high;
    low + 256 * h
  }

  function Votes01(vector: seq<Byte>): (votes: seq<Vote>) {
    seq(|vector|, i requires 0 <= i < |vector| => Vote(Slot(i), Kind01(vector[i])))
  }

  function Votes02(vector: seq<Byte>): (votes: seq<Vote>)
    requires |vector| % 2 == 0
  {
    seq(|vector| / 2, i requires 0 <= i < |vector| / 2 => Vote(Slot(i), Kind02(Word(vector[2 * i], vector[2 * i + 1]))))
  }

  predicate IsM4Commitment(script: seq<Byte>) {
    |script| >= 6 && script[0] == OP_RETURN && LittleEndian.Read(script[1..5]) == M4_COMMITMENT_HEADER
  }

  /** Versions 0 and 3 carry no votes of their own. */
  function ParseM4(script: seq<Byte>): Result<M4Message, ParseError> {
    if |script| < 6 then Failure(TooShort)
    else if script[0] != OP_RETURN then Failure(NotOpReturn)
    else if LittleEndian.Read(script[1..5]) != M4_COMMITMENT_HEADER then Failure(InvalidHeader)
    else
      var version, vector := script[5], script[6..];
      if version == 0 || version == 3 then Success(M4Message(version, []))
      else if version == 1 then Success(M4Message(version, Votes01(vector)))
      else if version == 2 then
        if |vector| % 2 != 0 then Failure(OddVector) else Success(M4Message(version, Votes02(vector)))
      else Failure(UnsupportedVersion(version))
  }

  method ParseVersion01(vector: seq<Byte>) returns (votes: seq<Vote>)
    ensures votes == Votes01(vector)
  {
    votes := [];
    for slot := 0 to |vector|
      invariant votes == Votes01(vector)[..slot]
    {
      var kind;
      if vector[slot] == 0xFF {
        kind := Abstain;
      } else if vector[slot] == 0xFE {
        kind := Alarm;
      } else {
        kind := Upvote(vector[slot]);
      }
      votes := votes + [Vote(Slot(slot), kind)];
    }
  }

  method ParseVersion02(vector: seq<Byte>) returns (r: Result<seq<Vote>, ParseError>)
    ensures r == if |vector| % 2 != 0 then Failure(OddVector) else Success(Votes02(vector))
  {
    if |vector| % 2 != 0 {
      return Failure(OddVector);
    }
    hide Votes02;
    ghost var all := Votes02(vector);
    Votes02At(vector);
    var votes := [];
    var i := 0;
    while i < |vector|
      invariant 0 <= i <= |vector| && i == 2 * |votes| && votes == all[..|votes|]
    {
      var value := Word(vector[i], vector[i + 1]);
      var kind;
      if value == VOTE_ABSTAIN {
        kind := Abstain;
      } else if value == VOTE_ALARM {
        kind := Alarm;
      } else {
        kind := Upvote(value);
      }
      assert i / 2 == |votes|;
      assert all[..|votes| + 1] == all[..|votes|] + [all[|votes|]];
      votes := votes + [Vote(Slot(i / 2), kind)];
      i := i + 2;
    }
    assert all[..|all|] == all;
    return Success(votes);
  }

  lemma Votes02At(vector: seq<Byte>)
    requires |vector| % 2 == 0
    ensures 2 * |Votes02(vector)| == |vector|
    ensures forall k :: 0 <= k < |Votes02(vector)| ==>
              Votes02(vector)[k] == Vote(Slot(k), Kind02(Word(vector[2 * k], vector[2 * k + 1])))
  {
  }

  method ParseM4Bytes(script: seq<Byte>) returns (r: Result<M4Message, ParseError>)
    ensures r == ParseM4(script)
  {
    if |script| < 6 {
      return Failure(TooShort);
    }
    if script[0] != OP_RETURN {
      return Failure(NotOpReturn);
    }
    if LittleEndian.Read(script[1..5]) != M4_COMMITMENT_HEADER {
      return Failure(InvalidHeader);
    }
    var version, vector := script[5], script[6..];
    if version == 0x00 || version == 0x03 {
      return Success(M4Message(version, []));
    } else if version == 0x01 {
      var votes := ParseVersion01(vector);
      return Success(M4Message(version, votes));
    } else if version == 0x02 {
      var votes := ParseVersion02(vector);
      if votes.Failure? {
        return Failure(votes.error);
      }
      return Success(M4Message(version, votes.value));
    }
    return Failure(UnsupportedVersion(version));
  }

  predicate SlotsInOrder(votes: seq<Vote>) {
    forall i :: 0 <= i < |votes| ==> votes[i].slot == i % 256
  }

  /** In every parsed message vote i is for slot i modulo 256. */
  lemma VoteSlots(script: seq<Byte>)
    ensures ParseM4(script).Success? ==> SlotsInOrder(ParseM4(script).value.votes)
  {
  }

  // ---------------------------------------------------------------- the bytes of a vote

  /** OP_RETURN and the M4 header as they stand in a script. */
  const M4_FRONT: seq<Byte> := [0x6a, 0x76, 0x17, 0x7d, 0xd7]

  /** One byte a vote: 255 abstains, 254 alarms, anything less upvotes. */
  predicate Fits01(kind: VoteKind) { kind.Upvote? ==> kind.index < 254 }

  function Byte01(kind: VoteKind): Byte
    requires Fits01(kind)
  {
    match kind
    case Abstain => 255
    case Alarm => 254
    case Upvote(index) => index
  }

  /** Two bytes a vote, the low one first: 65535 abstains, 65534 alarms. */
  predicate Fits02(kind: VoteKind) { kind.Upvote? ==> kind.index < 65534 }

  function Word02(kind: VoteKind): nat
    requires Fits02(kind)
  {
    match kind
    case Abstain => 65535
    case Alarm => 65534
    case Upvote(index) => index
  }

  /** Vote i is for slot i modulo 256. */
  function Numbered(kinds: seq<VoteKind>): seq<Vote> {
    seq(|kinds|, i requires 0 <= i < |kinds| => Vote(i % 256, kinds[i]))
  }

  function Vector01(kinds: seq<VoteKind>): seq<Byte>
    requires forall i :: 0 <= i < |kinds| ==> Fits01(kinds[i])
  {
    seq(|kinds|, i requires 0 <= i < |kinds| => Byte01(kinds[i]))
  }

  function Byte02(kinds: seq<VoteKind>, i: nat): Byte
    requires i < 2 * |kinds| && Fits02(kinds[i / 2])
  {
    if i % 2 == 0 then Word02(kinds[i / 2]) % 256 else Word02(kinds[i / 2]) / 256
  }

  function Vector02(kinds: seq<VoteKind>): seq<Byte>
    requires forall i :: 0 <= i < |kinds| ==> Fits02(kinds[i])
  {
    seq(2 * |kinds|, i requires 0 <= i < 2 * |kinds| => Byte02(kinds, i))
  }

  /** The M4 header is read from exactly these bytes. */
  lemma FrontReads(script: seq<Byte>)
    requires |script| >= 6
    ensures script[0] == OP_RETURN && LittleEndian.Read(script[1..5]) == M4_COMMITMENT_HEADER
       <==> script[..5] == M4_FRONT
  {
    var front: seq<Byte> := [0x76, 0x17, 0x7d, 0xd7];
    ReadFour(front);
    if script[0] == OP_RETURN && LittleEndian.Read(script[1..5]) == M4_COMMITMENT_HEADER {
      ReadInjective(script[1..5], front);
      assert script[..5] == [script[0]] + script[1..5];
    }
    if script[..5] == M4_FRONT {
      assert script[1..5] == script[..5][1..] == front;
      assert script[0] == script[..5][0];
    }
  }

  lemma ReadFour(s: seq<Byte>)
    requires |s| == 4
    ensures var b1: int, b2: int, b3: int := s[1], s[2], s[3];
            LittleEndian.Read(s) == s[0] + 0x100 * b1 + 0x1_0000 * b2 + 0x100_0000 * b3
  {
    assert s[1..][1..] == s[2..] && s[2..][1..] == s[3..] && s[3..][1..] == [];
    assert LittleEndian.Read(s[3..]) == s[3];
    assert LittleEndian.Read(s[2..]) == s[2] + 256 * LittleEndian.Read(s[3..]);
    assert LittleEndian.Read(s[1..]) == s[1] + 256 * LittleEndian.Read(s[2..]);
  }

  /** Readable are versions 0, 1 and 3, and version 2 of even length; versions 0 and 3 give no votes. */
  lemma ReadableIff(script: seq<Byte>)
    ensures ParseM4(script).Success?
       <==> && |script| >= 6 && script[..5] == M4_FRONT
            && (script[5] in [0, 1, 3] || (script[5] == 2 && |script| % 2 == 0))
    ensures ParseM4(script).Success? && script[5] in [0, 3] ==> ParseM4(script).value == M4Message(script[5], [])
    ensures ParseM4(script) == Failure(TooShort) <==> |script| < 6
    ensures ParseM4(script) == Failure(NotOpReturn) <==> |script| >= 6 && script[0] != 0x6a
    ensures ParseM4(script) == Failure(OddVector)
       <==> |script| >= 6 && script[..5] == M4_FRONT && script[5] == 2 && |script| % 2 == 1
    ensures |script| >= 6 && script[..5] == M4_FRONT && script[5] > 3
        ==> ParseM4(script) == Failure(UnsupportedVersion(script[5]))
  {
    hide LittleEndian.Read, Votes01, Votes02;
    if |script| >= 6 {
      FrontReads(script);
      assert |script[6..]| == |script| - 6;
    }
  }

  /** The scripts parsed as version 1 are exactly the header, the version and one byte for each vote... */
  lemma Version01Iff(script: seq<Byte>, kinds: seq<VoteKind>)
    requires forall i :: 0 <= i < |kinds| ==> Fits01(kinds[i])
    ensures ParseM4(script) == Success(M4Message(1, Numbered(kinds))) <==> script == M4_FRONT + [1] + Vector01(kinds)
  {
    hide LittleEndian.Read;
    if |script| >= 6 {
      FrontReads(script);
      assert script == script[..5] + [script[5]] + script[6..];
      Votes01Iff(script[6..], kinds);
    }
  }

  lemma Votes01Iff(vector: seq<Byte>, kinds: seq<VoteKind>)
    requires forall i :: 0 <= i < |kinds| ==> Fits01(kinds[i])
    ensures Votes01(vector) == Numbered(kinds) <==> vector == Vector01(kinds)
  {
    if |vector| == |kinds| {
      forall i | 0 <= i < |kinds|
        ensures Votes01(vector)[i] == Numbered(kinds)[i] <==> vector[i] == Vector01(kinds)[i]
      {
      }
    }
  }

  /** ...and those parsed as version 2 the header, the version and two bytes for each vote. */
  lemma Version02Iff(script: seq<Byte>, kinds: seq<VoteKind>)
    requires forall i :: 0 <= i < |kinds| ==> Fits02(kinds[i])
    ensures ParseM4(script) == Success(M4Message(2, Numbered(kinds))) <==> script == M4_FRONT + [2] + Vector02(kinds)
  {
    hide LittleEndian.Read, Votes02, Vector02;
    if |script| >= 6 {
      FrontReads(script);
      assert script == script[..5] + [script[5]] + script[6..];
      Vector02Size(kinds);
      if |script[6..]| % 2 == 0 {
        Votes02Iff(script[6..], kinds);
      }
    }
  }

  lemma Vector02Size(kinds: seq<VoteKind>)
    requires forall i :: 0 <= i < |kinds| ==> Fits02(kinds[i])
    ensures |Vector02(kinds)| % 2 == 0
  {
  }

  lemma Votes02Iff(vector: seq<Byte>, kinds: seq<VoteKind>)
    requires |vector| % 2 == 0 && forall i :: 0 <= i < |kinds| ==> Fits02(kinds[i])
    ensures Votes02(vector) == Numbered(kinds) <==> vector == Vector02(kinds)
  {
    var want := Vector02(kinds);
    if |vector| == 2 * |kinds| {
      forall i | 0 <= i < |kinds|
        ensures Votes02(vector)[i] == Numbered(kinds)[i]
           <==> vector[2 * i] == want[2 * i] && vector[2 * i + 1] == want[2 * i + 1]
      {
        PairIff(vector[2 * i], vector[2 * i + 1], kinds[i]);
        assert want[2 * i] == Word02(kinds[i]) % 256 && want[2 * i + 1] == Word02(kinds[i]) / 256;
      }
      if Votes02(vector) == Numbered(kinds) {
        forall j | 0 <= j < |vector| ensures vector[j] == want[j] {
          var i := j / 2;
          assert j == 2 * i || j == 2 * i + 1;
          assert Votes02(vector)[i] == Numbered(kinds)[i];
        }
      }
    }
  }

  lemma PairIff(low: Byte, high: Byte, kind: VoteKind)
    requires Fits02(kind)
    ensures Kind02(Word(low, high)) == kind <==> low == Word02(kind) % 256 && high == Word02(kind) / 256
  {
  }

  // ---------------------------------------------------------------- bundle proposals

  function Reversed<T>(s: seq<T>): (r: seq<T>)
    ensures |r| == |s| && forall i :: 0 <= i < |s| ==> r[i] == s[|s| - 1 - i]
  {
    seq(|s|, i requires 0 <= i < |s| => s[|s| - 1 - i])
  }

  function ParseM3(script: seq<Byte>): Result<M3Message, ParseError> {
    if |script| != 38 then Failure(BadLength)
    else if script[0] != OP_RETURN then Failure(NotOpReturn)
    else if LittleEndian.Read(script[1..5]) != M3_COMMITMENT_HEADER then Failure(InvalidHeader)
    else Success(M3Message(script[37], Hex.EncodeToString(Reversed(script[5..37]))))
  }

  predicate IsM3Commitment(script: seq<Byte>) {
    |script| == 38 && script[0] == OP_RETURN && LittleEndian.Read(script[1..5]) == M3_COMMITMENT_HEADER
  }

  method ParseM3Bytes(script: seq<Byte>) returns (r: Result<M3Message, ParseError>)
    ensures r == ParseM3(script)
  {
    if |script| != 38 {
      return Failure(BadLength);
    }
    if script[0] != OP_RETURN {
      return Failure(NotOpReturn);
    }
    if LittleEndian.Read(script[1..5]) != M3_COMMITMENT_HEADER {
      return Failure(InvalidHeader);
    }
    var hash := script[5..37];
    var bytes := new Byte[32](i requires 0 <= i < 32 => hash[i]);
    for i := 0 to 16
      invariant forall k :: 0 <= k < i ==> bytes[k] == hash[31 - k] && bytes[31 - k] == hash[k]
      invariant forall k :: i <= k < 32 - i ==> bytes[k] == hash[k]
    {
      bytes[i], bytes[31 - i] := bytes[31 - i], bytes[i];
    }
    assert bytes[..] == Reversed(hash);
    return Success(M3Message(script[37], Hex.EncodeToString(bytes[..])));
  }

  /** A proposal script determines, and is determined by, the slot and hash it is parsed to. */
  lemma M3Injective(a: seq<Byte>, b: seq<Byte>)
    requires ParseM3(a).Success? && ParseM3(a) == ParseM3(b)
    ensures a == b
  {
    var x, y := a[5..37], b[5..37];
    Hex.EncodeInjective(Reversed(x), Reversed(y));
    forall i | 0 <= i < 32 ensures x[i] == y[i] {
      assert Reversed(x)[31 - i] == Reversed(y)[31 - i];
    }
    assert x == y;
    ReadInjective(a[1..5], b[1..5]);
    assert a == [a[0]] + a[1..5] + x + [a[37]];
    assert b == [b[0]] + b[1..5] + y + [b[37]];
  }

  lemma {:induction false} ReadInjective(a: seq<Byte>, b: seq<Byte>)
    requires |a| == |b| && LittleEndian.Read(a) == LittleEndian.Read(b)
    ensures a == b
  {
    if a != [] {
      ReadInjective(a[1..], b[1..]);
      assert a == [a[0]] + a[1..] && b == [b[0]] + b[1..];
    }
  }

  /** A proposal is OP_RETURN, the M3 header, the 32 bytes of the hash and the slot; the hash is shown backwards. */
  lemma ProposalBytes(hash: seq<Byte>, slot: Byte)
    requires |hash| == 32
    ensures var script := [0x6a, 0x43, 0xa9, 0x5a, 0xd4] + hash + [slot];
            && IsM3Commitment(script) && ParseM3(script).Success? && ParseM3(script).value.slot == slot
            && |ParseM3(script).value.bundleHash| == 64
            && forall k :: 0 <= k < 32 ==>
                 && ParseM3(script).value.bundleHash[2 * k] == "0123456789abcdef"[hash[31 - k] / 16]
                 && ParseM3(script).value.bundleHash[2 * k + 1] == "0123456789abcdef"[hash[31 - k] % 16]
  {
    hide LittleEndian.Read, Hex.EncodeToString;
    var front: seq<Byte> := [0x43, 0xa9, 0x5a, 0xd4];
    var script := [0x6a, 0x43, 0xa9, 0x5a, 0xd4] + hash + [slot];
    assert script[1..5] == front && script[5..37] == hash && script[37] == slot;
    ReadFour(front);
    Hex.HexDigits(Reversed(hash));
  }
}
