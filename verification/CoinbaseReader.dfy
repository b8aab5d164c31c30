/** What a reader of the wire format finds in the coinbase of a block template, before and after the splice. */
module CoinbaseReader {
  import opened Numerals
  import opened Wrappers
  import LittleEndian
  import Hex
  import opened Coinbase

  datatype Output = Output(value: nat, script: seq<Byte>)

  datatype Tx = Tx(version: nat, prevHash: seq<Byte>, prevIndex: nat, script: seq<Byte>, sequence: nat,
                   outputs: seq<Output>, lockTime: nat)

  /** n outputs from the front of s, and what follows them. */
  function ReadOutputs(n: nat, s: seq<Byte>): Option<(seq<Output>, seq<Byte>)> {
    if n == 0 then Some(([], s))
    else if |s| < 9 then None
    else
      var len: int := s[8];
      if len >= 0xfd || |s| < 9 + len then None
      else
        match ReadOutputs(n - 1, s[9 + len..])
        case None => None
        case Some(r) => Some(([Output(LittleEndian.Read(s[..8]), s[9..9 + len])] + r.0, r.1))
  }

  /** A transaction without witnesses that has one input; scripts and lists are shorter than 253. */
  function ReadTx(s: seq<Byte>): Option<Tx> {
    if |s| < 42 || s[4] != 1 then None
    else
      var len: int := s[41];
      if len >= 0xfd || |s| < 47 + len then None
      else
        var script, rest := s[42..42 + len], s[42 + len..];
        match ReadOutputs(rest[4], rest[5..])
        case None => None
        case Some(r) =>
          if |r.1| != 4 then None
          else
            Some(Tx(LittleEndian.Read(s[..4]), s[5..37], LittleEndian.Read(s[37..41]), script,
                    LittleEndian.Read(rest[..4]), r.0, LittleEndian.Read(r.1)))
  }

  /** BIP 34: a small-integer opcode and a filler up to 16, otherwise one push of the minimal script number. */
  function HeightBytes(height: nat): seq<Byte>
    requires |ScriptNum(height)| < 0x4c
  {
    if 1 <= height <= 16 then [0x50 + height, 0] else [|ScriptNum(height)|] + ScriptNum(height)
  }

  /** The commitment of BIP 141, section "Commitment structure": OP_RETURN, a push of 36 bytes, the tag aa21a9ed and the
      digest. */
  function OutputsOf(segwit: bool, value: nat, pkScript: seq<Byte>, commitment: Digest): seq<Output> {
    [Output(value, pkScript)]
    + if segwit then [Output(0, [0x6a, 0x24, 0xaa, 0x21, 0xa9, 0xed] + commitment)] else []
  }

  function CoinbaseOf(script: seq<Byte>, segwit: bool, value: nat, pkScript: seq<Byte>, commitment: Digest): Tx {
    Tx(1, seq(32, _ => 0), 0xffff_ffff, script, 0xffff_ffff, OutputsOf(segwit, value, pkScript, commitment), 0)
  }

  /** Heights in bytes, at the edges of the encoding. */
  lemma HeightsKnown()
    ensures HeightScript(0) == [0] && HeightScript(1) == [0x51, 0] && HeightScript(16) == [0x60, 0]
    ensures HeightScript(17) == [1, 17] && HeightScript(127) == [1, 127] && HeightScript(128) == [2, 128, 0]
    ensures HeightScript(255) == [2, 255, 0] && HeightScript(256) == [2, 0, 1]
    ensures HeightScript(227_836) == [3, 0xfc, 0x79, 0x03]
    ensures HeightScript(8_388_608) == [4, 0, 0, 128, 0]
  {
    assert ScriptNum(227_836) == [0xfc] + ScriptNum(889) && ScriptNum(889) == [0x79] + ScriptNum(3);
    assert ScriptNum(8_388_608) == [0] + ScriptNum(32768) && ScriptNum(32768) == [0] + ScriptNum(128);
  }

  /** The built transaction is read as version 1, the null outpoint, the height, the final sequence number, the
      miner's output with the whole value, the commitment of a segwit block, and no lock time. */
  lemma CoinbaseReads(segwit: bool, height: nat, value: nat, pkScript: seq<Byte>, commitment: Digest)
    requires |ScriptNum(height)| <= 9 && value < 0x1_0000_0000_0000_0000 && |pkScript| < 0xfd
    ensures ReadTx(Transaction(segwit, height, value, pkScript, commitment))
         == Some(CoinbaseOf(HeightBytes(height), segwit, value, pkScript, commitment))
  {
    TransactionFront(segwit, height, value, pkScript, commitment);
    AnyScriptReads(HeightBytes(height), segwit, value, pkScript, commitment);
  }

  lemma TransactionFront(segwit: bool, height: nat, value: nat, pkScript: seq<Byte>, commitment: Digest)
    requires |ScriptNum(height)| <= 9 && |pkScript| < 0xfd
    ensures |HeightBytes(height)| < 0xfd
    ensures Transaction(segwit, height, value, pkScript, commitment)
         == BEFORE_SCRIPT + [|HeightBytes(height)|] + HeightBytes(height)
            + AfterScript(segwit, value, pkScript, commitment)
  {
    hide AfterScript, ScriptNum;
    assert HeightScript(height) == HeightBytes(height);
  }

  /** Whatever script stands between the parts written before and after it. */
  lemma AnyScriptReads(script: seq<Byte>, segwit: bool, value: nat, pkScript: seq<Byte>, commitment: Digest)
    requires |script| < 0xfd && value < 0x1_0000_0000_0000_0000 && |pkScript| < 0xfd
    ensures ReadTx(BEFORE_SCRIPT + [|script|] + script + AfterScript(segwit, value, pkScript, commitment))
         == Some(CoinbaseOf(script, segwit, value, pkScript, commitment))
  {
    hide AfterScript, LittleEndian.Read, LittleEndian.Bytes, ReadOutputs;
    var after := AfterScript(segwit, value, pkScript, commitment);
    var s := BEFORE_SCRIPT + [|script|] + script + after;
    BeforeReads();
    AfterReads(segwit, value, pkScript, commitment);
    assert s[..41] == BEFORE_SCRIPT;
    assert s[41] == |script| && s[42..42 + |script|] == script && s[42 + |script|..] == after;
    assert s[..4] == s[..41][..4] && s[4] == s[..41][4] && s[5..37] == s[..41][5..37] && s[37..41] == s[..41][37..];
  }

  lemma BeforeReads()
    ensures var b := BEFORE_SCRIPT;
            && |b| == 41 && LittleEndian.Read(b[..4]) == 1 && b[4] == 1
            && b[5..37] == seq(32, _ => 0) && LittleEndian.Read(b[37..]) == 0xffff_ffff
  {
    hide LittleEndian.Read, LittleEndian.Bytes;
    var b, zeros := BEFORE_SCRIPT, LittleEndian.Bytes(0, 32);
    ReadsBack(1, 4);
    ReadsBack(0xffff_ffff, 4);
    ZeroBytes(32);
    assert b[..4] == LittleEndian.Bytes(1, 4) && b[5..37] == zeros && b[37..] == LittleEndian.Bytes(0xffff_ffff, 4);
  }

  lemma {:induction false} ZeroBytes(width: nat)
    ensures LittleEndian.Bytes(0, width) == seq(width, _ => 0)
  {
    if width > 0 {
      ZeroBytes(width - 1);
      assert LittleEndian.Bytes(0, width) == [0] + LittleEndian.Bytes(0, width - 1);
    }
  }

  lemma ReadsBack(n: nat, width: nat)
    requires width in [4, 8] && n < if width == 4 then 0x1_0000_0000 else 0x1_0000_0000_0000_0000
    ensures LittleEndian.Read(LittleEndian.Bytes(n, width)) == n
  {
    LittleEndian.PowerIs();
    LittleEndian.ReadBytes(n, width);
  }

  /** Sequence number, output count, outputs, lock time. */
  lemma AfterReads(segwit: bool, value: nat, pkScript: seq<Byte>, commitment: Digest)
    requires value < 0x1_0000_0000_0000_0000 && |pkScript| < 0xfd
    ensures var a := AfterScript(segwit, value, pkScript, commitment);
            && |a| >= 5 && LittleEndian.Read(a[..4]) == 0xffff_ffff && a[4] == (if segwit then 2 else 1)
            && ReadOutputs(a[4], a[5..]).Some?
            && ReadOutputs(a[4], a[5..]).value.0 == OutputsOf(segwit, value, pkScript, commitment)
            && |ReadOutputs(a[4], a[5..]).value.1| == 4
            && LittleEndian.Read(ReadOutputs(a[4], a[5..]).value.1) == 0
  {
    hide LittleEndian.Read, LittleEndian.Bytes, ReadOutputs, AfterScript, OutputBytes;
    var a, lock := AfterScript(segwit, value, pkScript, commitment), LittleEndian.Bytes(0, 4);
    var tag: seq<Byte> := [0x6a, 0x24, 0xaa, 0x21, 0xa9, 0xed] + commitment;
    var rest := if segwit then OutputBytes(0, tag) + lock else lock;
    ReadsBack(0xffff_ffff, 4);
    ReadsBack(0, 4);
    AfterIs(segwit, value, pkScript, commitment);
    assert a[..4] == LittleEndian.Bytes(0xffff_ffff, 4) && a[5..] == OutputBytes(value, pkScript) + rest;
    NoOutputs(lock);
    if segwit {
      OutputReads(0, 0, tag, lock);
      OutputReads(1, value, pkScript, rest);
    } else {
      OutputReads(0, value, pkScript, rest);
    }
  }

  lemma AfterIs(segwit: bool, value: nat, pkScript: seq<Byte>, commitment: Digest)
    requires |pkScript| < 0xfd
    ensures var tag: seq<Byte> := [0x6a, 0x24, 0xaa, 0x21, 0xa9, 0xed] + commitment;
            var lock := LittleEndian.Bytes(0, 4);
            AfterScript(segwit, value, pkScript, commitment) ==
              LittleEndian.Bytes(0xffff_ffff, 4) + [if segwit then 2 else 1]
              + (OutputBytes(value, pkScript) + if segwit then OutputBytes(0, tag) + lock else lock)
  {
    hide LittleEndian.Bytes;
    LittleEndian.EightBytes(value);
    var tag: seq<Byte> := [0x6a, 0x24, 0xaa, 0x21, 0xa9, 0xed] + commitment;
    var lock, front := LittleEndian.Bytes(0, 4), LittleEndian.Bytes(0xffff_ffff, 4) + [if segwit then 2 else 1];
    assert Payment(segwit, value, pkScript) == front + OutputBytes(value, pkScript);
    if segwit {
      assert CommitmentOutput(commitment) == OutputBytes(0, tag);
      assert AfterScript(segwit, value, pkScript, commitment)
          == front + OutputBytes(value, pkScript) + OutputBytes(0, tag) + lock;
    }
  }

  function OutputBytes(value: nat, script: seq<Byte>): seq<Byte>
    requires |script| < 0xfd
  {
    LittleEndian.Bytes(value, 8) + [|script|] + script
  }

  lemma NoOutputs(rest: seq<Byte>)
    ensures ReadOutputs(0, rest) == Some(([], rest))
  {
  }

  lemma OutputReads(n: nat, value: nat, script: seq<Byte>, rest: seq<Byte>)
    requires value < 0x1_0000_0000_0000_0000 && |script| < 0xfd
    ensures ReadOutputs(n + 1, OutputBytes(value, script) + rest)
         == match ReadOutputs(n, rest)
            case None => None
            case Some(r) => Some(([Output(value, script)] + r.0, r.1))
  {
    hide LittleEndian.Read, LittleEndian.Bytes;
    var s := OutputBytes(value, script) + rest;
    ReadsBack(value, 8);
    assert s[..8] == LittleEndian.Bytes(value, 8) && s[8] == |script|;
    assert s[9..9 + s[8]] == script && s[9 + s[8]..] == rest;
  }

  // ---------------------------------------------------------------- after the splice

  /** What is put behind a script of n bytes for a signature: it follows one length byte while n + m, counted modulo
      256, is below 76, OP_PUSHDATA1 and the length as long as everything fits 100 bytes, and nothing otherwise. */
  function SignaturePush(n: nat, xsig: seq<Byte>): seq<Byte> {
    if xsig == [] then []
    else if (n + |xsig|) % 256 < 76 then [|xsig| % 256] + xsig
    else if n + |xsig| <= 98 then [0x4c, |xsig|] + xsig
    else xsig
  }

  /** As long as the spliced script has a one-byte length, the reader finds the height and then the signature in
      it, and the rest of the coinbase as it was built. */
  lemma SignedCoinbaseReads(segwit: bool, height: nat, value: nat, pkScript: seq<Byte>, commitment: Digest,
                            xsig: seq<Byte>)
    requires |ScriptNum(height)| <= 9 && value < 0x1_0000_0000_0000_0000 && |pkScript| < 0xfd
    requires |HeightBytes(height)| + |xsig| < 0xfd
    ensures HasScript(Transaction(segwit, height, value, pkScript, commitment))
    ensures ReadTx(Spliced(Transaction(segwit, height, value, pkScript, commitment), xsig))
         == Some(CoinbaseOf(HeightBytes(height) + SignaturePush(|HeightBytes(height)|, xsig),
                            segwit, value, pkScript, commitment))
  {
    hide AfterScript, ScriptNum, ReadTx, BEFORE_SCRIPT, Transaction, Spliced, SignaturePush, HeightBytes, HasScript;
    var script, after := HeightBytes(height), AfterScript(segwit, value, pkScript, commitment);
    var signed := script + SignaturePush(|script|, xsig);
    TransactionFront(segwit, height, value, pkScript, commitment);
    BeforeLength();
    HeightShort(height);
    PushShort(|script|, xsig);
    SpliceIs(BEFORE_SCRIPT, script, after, xsig);
    assert |signed| % 256 == |signed|;
    AnyScriptReads(signed, segwit, value, pkScript, commitment);
  }

  lemma BeforeLength()
    ensures |BEFORE_SCRIPT| == 41
  {
  }

  lemma HeightShort(height: nat)
    requires |ScriptNum(height)| <= 9
    ensures |HeightBytes(height)| <= 10
  {
  }

  /** Whatever its length, the signature goes between the script and what follows it, and the script length becomes
      the new one modulo 256. */
  lemma SpliceIs(before: seq<Byte>, script: seq<Byte>, after: seq<Byte>, xsig: seq<Byte>)
    requires |before| == 41 && |script| <= 100
    ensures HasScript(before + [|script|] + script + after)
    ensures var signed := script + SignaturePush(|script|, xsig);
            Spliced(before + [|script|] + script + after, xsig) == before + [|signed| % 256] + signed + after
  {
    SpliceParsed(before, script, after);
    if xsig != [] {
      PushIs(|script|, xsig);
      hide PushBytes, SignaturePush, AddBytes, ScriptEnd, HasScript;
      var push := SignaturePush(|script|, xsig);
      var front := before + [|script + push| % 256];
      assert front + (script + push) == front + script + push;
    }
  }

  lemma SpliceParsed(before: seq<Byte>, script: seq<Byte>, after: seq<Byte>)
    requires |before| == 41 && |script| <= 100
    ensures var tx, end := before + [|script|] + script + after, 42 + |script|;
            && HasScript(tx) && ScriptEnd(tx) == end && tx[41] == |script|
            && tx[..41] == before && tx[42..end] == script && tx[end..] == after
  {
  }

  lemma PushIs(n: nat, xsig: seq<Byte>)
    requires n <= 100 && xsig != []
    ensures PushBytes(n, |xsig|) + xsig == SignaturePush(n, xsig)
    ensures AddBytes(n, |SignaturePush(n, xsig)|) == (n + |SignaturePush(n, xsig)|) % 256
  {
    hide PushBytes, SignaturePush, AddBytes;
    PushBytesAre(n, xsig);
    AddedLength(n, |SignaturePush(n, xsig)|);
  }

  lemma AddedLength(n: nat, k: nat)
    requires n <= 100
    ensures AddBytes(n, k) == (n + k) % 256
  {
  }

  lemma PushBytesAre(n: nat, xsig: seq<Byte>)
    requires n <= 100 && xsig != []
    ensures PushBytes(n, |xsig|) + xsig == SignaturePush(n, xsig)
  {
    assert (n + |xsig| % 256) % 256 == (n + |xsig|) % 256;
  }

  lemma PushShort(n: nat, xsig: seq<Byte>)
    requires n <= 100 && n + |xsig| < 0xfd
    ensures n + |SignaturePush(n, xsig)| < 0xfd
  {
  }

  // ---------------------------------------------------------------- gathering the signature

  /** Values of 1 to 100 bytes are taken over in the order they come when they still fit 100 bytes, and skipped
      otherwise; the first longer one, or one that is no hex text, is an error. */
  lemma SignatureTakes(xsig: seq<Byte>, bytes: seq<Byte>, text: string, rest: seq<string>)
    ensures Signature(xsig, []) == Success(xsig)
    ensures 0 < |bytes| <= 100 && |xsig| + |bytes| <= 100
        ==> Signature(xsig, [Hex.EncodeToString(bytes)] + rest) == Signature(xsig + bytes, rest)
    ensures 0 < |bytes| <= 100 && |xsig| + |bytes| > 100
        ==> Signature(xsig, [Hex.EncodeToString(bytes)] + rest) == Signature(xsig, rest)
    ensures |text| >= 202 ==> Signature(xsig, [text] + rest) == Failure(AuxTooLong(|text| / 2))
    ensures |text| < 202 && (text == "" || !Hex.IsHex(text)) ==> Signature(xsig, [text] + rest).Failure?
  {
    hide Hex.Decode, Hex.IsHex;
    Hex.DecodeEncoded(100, bytes);
    var encoded := Hex.EncodeToString(bytes);
    assert ([encoded] + rest)[1..] == rest && ([text] + rest)[1..] == rest;
  }
}
