/** The coinbase transaction of a block template: BIP 34 height, buffer layout, and the signature splice. */
module Coinbase {
  import opened Numerals
  import opened Wrappers
  import LittleEndian
  import Hex

  // ---------------------------------------------------------------- script numbers

  /** The height loop: low byte first, with a zero byte after a final byte that would read as negative. */
  function ScriptNum(n: nat): (s: seq<Byte>)
    ensures n > 0 ==> |s| > 0
  {
    if n == 0 then []
    else if n < 0x80 then [n]
    else if n < 0x100 then [n, 0]
    else [n % 256] + ScriptNum(n / 256)
  }

  /** A script number in Bitcoin's sense: little-endian magnitude, the top bit is the sign. */
  function DecodeNum(s: seq<Byte>): int {
    if s == [] then 0
    else
      var last := s[|s| - 1];
      if last < 0x80 then LittleEndian.Read(s)
      else
        var magnitude: int := LittleEndian.Read(s[..|s| - 1] + [last - 0x80]);
        -magnitude
  }

  /** No shorter encoding has the same value. */
  predicate Minimal(s: seq<Byte>) {
    s != [] ==> s[|s| - 1] % 0x80 != 0 || (|s| > 1 && s[|s| - 2] >= 0x80)
  }

  lemma {:induction false} ScriptNumReads(n: nat)
    ensures LittleEndian.Read(ScriptNum(n)) == n
    ensures n > 0 ==> ScriptNum(n)[|ScriptNum(n)| - 1] < 0x80
    ensures Minimal(ScriptNum(n))
  {
    if n == 0 {
    } else if n < 0x100 {
      assert LittleEndian.Read([0]) == 0;
      if n >= 0x80 { assert [n, 0][1..] == [0]; }
    } else {
      ScriptNumReads(n / 256);
      var s, high := ScriptNum(n), ScriptNum(n / 256);
      assert s[1..] == high;
      assert s[|s| - 1] == high[|high| - 1];
      if |high| > 1 { assert s[|s| - 2] == high[|high| - 2]; }
    }
  }

  /** The height bytes are a script number that decodes to the height, and a minimal one. */
  lemma ScriptNumDecodes(n: nat)
    ensures DecodeNum(ScriptNum(n)) == n && Minimal(ScriptNum(n))
  {
    ScriptNumReads(n);
  }

  lemma {:induction false} MinimalReadPositive(s: seq<Byte>)
    requires s != [] && Minimal(s) && s[|s| - 1] < 0x80
    ensures LittleEndian.Read(s) > 0
    ensures ScriptNum(LittleEndian.Read(s)) == s
  {
    var n := LittleEndian.Read(s);
    if |s| == 1 {
      assert LittleEndian.Read(s[1..]) == 0;
      assert s == [s[0]];
    } else {
      var high := s[1..];
      assert high[|high| - 1] == s[|s| - 1];
      if |high| == 1 && high[0] == 0 {
        assert s == [s[0], 0];
        assert LittleEndian.Read(high[1..]) == 0;
        assert n == s[0];
      } else {
        if |high| > 1 { assert high[|high| - 2] == s[|s| - 2]; }
        MinimalReadPositive(high);
        assert n == s[0] + 256 * LittleEndian.Read(high);
        assert s == [s[0]] + high;
      }
    }
  }

  /** Minimal encodings are unique, so the height bytes are the only minimal push of that number. */
  lemma MinimalIsScriptNum(s: seq<Byte>, n: nat)
    requires Minimal(s) && DecodeNum(s) == n
    ensures s == ScriptNum(n)
  {
    if s != [] {
      var last := s[|s| - 1];
      if last < 0x80 {
        MinimalReadPositive(s);
      } else {
        var magnitude := s[..|s| - 1] + [last - 0x80];
        assert magnitude[|s| - 1] != 0 || (|s| > 1 && magnitude[|s| - 2] != 0);
        NonZeroMagnitude(magnitude);
      }
    }
  }

  lemma {:induction false} NonZeroMagnitude(s: seq<Byte>)
    ensures (exists i :: 0 <= i < |s| && s[i] != 0) ==> LittleEndian.Read(s) > 0
  {
    if i :| 0 <= i < |s| && s[i] != 0 {
      NonZeroMagnitude(s[1..]);
      if i > 0 { assert s[1..][i - 1] != 0; }
    }
  }

  lemma {:induction false} ScriptNumLength(n: nat, width: nat)
    requires n < LittleEndian.Power256(width)
    ensures |ScriptNum(n)| <= width + 1
  {
    if n >= 0x100 {
      ScriptNumLength(n / 256, width - 1);
    }
  }

  // ---------------------------------------------------------------- the transaction's layout

  /** The script before any signature: the height, and a filler byte after a small-integer opcode. */
  function HeightScript(height: nat): (script: seq<Byte>)
    requires |ScriptNum(height)| < 256
  {
    if 1 <= height <= 16 then [height + 0x50, 0x00]
    else [|ScriptNum(height)|] + ScriptNum(height)
  }

  const COMMITMENT_HEADER: seq<Byte> := [38, 0x6a, 0x24, 0xaa, 0x21, 0xa9, 0xed]

  /** Sequence, output count and the output that pays the miner. */
  function Payment(segwit: bool, value: nat, pkScript: seq<Byte>): (s: seq<Byte>)
    requires |pkScript| < 256
    ensures |s| == 14 + |pkScript|
  {
    LittleEndian.Bytes(0xffffffff, 4) + [if segwit then 2 else 1]
    + LittleEndian.Bytes(value, 4) + LittleEndian.Bytes(value / 0x1_0000_0000, 4) + [|pkScript|] + pkScript
  }

  function CommitmentOutput(commitment: Digest): (s: seq<Byte>)
    ensures |s| == 47
  {
    LittleEndian.Bytes(0, 8) + COMMITMENT_HEADER + commitment
  }

  /** Everything after the script: sequence, outputs and lock time. */
  function AfterScript(segwit: bool, value: nat, pkScript: seq<Byte>, commitment: Digest): seq<Byte>
    requires |pkScript| < 256
  {
    Payment(segwit, value, pkScript) + (if segwit then CommitmentOutput(commitment) else []) + LittleEndian.Bytes(0, 4)
  }

  /** Version, one input, the null outpoint: the 41 bytes before the script length. */
  const BEFORE_SCRIPT: seq<Byte> := LittleEndian.Bytes(1, 4) + [1] + LittleEndian.Bytes(0, 32)
    + LittleEndian.Bytes(0xffffffff, 4)

  function Transaction(segwit: bool, height: nat, value: nat, pkScript: seq<Byte>, commitment: Digest): seq<Byte>
    requires |ScriptNum(height)| < 255 && |pkScript| < 256
  {
    BEFORE_SCRIPT + [|HeightScript(height)|] + HeightScript(height) + AfterScript(segwit, value, pkScript, commitment)
  }

  // ---------------------------------------------------------------- writing it at a moving offset

  method PutByte(buf: array<Byte>, size: nat, b: Byte) returns (end: nat)
    requires size < buf.Length
    modifies buf
    ensures end == size + 1 && buf[..end] == old(buf[..size]) + [b]
  {
    buf[size] := b;
    end := size + 1;
  }

  /** copy(buf[size:], bytes). */
  method PutBytes(buf: array<Byte>, size: nat, bytes: seq<Byte>) returns (end: nat)
    requires size + |bytes| <= buf.Length
    modifies buf
    ensures end == size + |bytes| && buf[..end] == old(buf[..size]) + bytes
  {
    for i := 0 to |bytes|
      invariant buf[..size] == old(buf[..size])
      invariant buf[size..size + i] == bytes[..i]
    {
      buf[size + i] := bytes[i];
    }
    end := size + |bytes|;
    assert buf[..end] == buf[..size] + buf[size..end];
  }

  method PutLe32(buf: array<Byte>, size: nat, x: nat) returns (end: nat)
    requires size + 4 <= buf.Length
    modifies buf
    ensures end == size + 4 && buf[..end] == old(buf[..size]) + LittleEndian.Bytes(x, 4)
  {
    LittleEndian.FourBytes(x);
    buf[size] := x % 0x100;
    buf[size + 1] := x / 0x100 % 0x100;
    buf[size + 2] := x / 0x1_0000 % 0x100;
    buf[size + 3] := x / 0x100_0000 % 0x100;
    end := size + 4;
    assert buf[..end] == buf[..size] + [buf[size], buf[size + 1], buf[size + 2], buf[size + 3]];
  }

  /** The height loop of the source, starting behind the opcode. Shifting a negative height never reaches 0, and the
      bytes it writes run off the buffer: the source panics there. */
  method PutScriptNum(buf: array<Byte>, start: nat, height: int) returns (end: Option<nat>)
    requires start <= buf.Length && (height >= 0 ==> start + |ScriptNum(height)| <= buf.Length)
    modifies buf
    ensures end.Some? <==> height >= 0
    ensures height >= 0 ==> end == Some(start + |ScriptNum(height)|)
                            && buf[..end.value] == old(buf[..start]) + ScriptNum(height)
  {
    hide ScriptNum;
    ScriptNumStep(0);
    var size := start;
    var n := height;
    while n != 0
      invariant size <= buf.Length && (n >= 0 <==> height >= 0)
      invariant n >= 0 ==> size + |ScriptNum(n)| == start + |ScriptNum(height)|
      invariant n >= 0 ==> buf[..size] + ScriptNum(n) == old(buf[..start]) + ScriptNum(height)
      decreases buf.Length - size
    {
      ghost var written := buf[..size];
      if n > 0 {
        ScriptNumStep(n);
      }
      if size == buf.Length {
        return None;
      }
      size := PutByte(buf, size, n % 0x100);
      if n < 0x100 && n >= 0x80 {
        size := PutByte(buf, size, 0);
        assert buf[..size] == written + [n, 0];
      }
      n := n / 0x100;
    }
    assert buf[..size] + [] == buf[..size];
    return Some(size);
  }

  lemma ScriptNumStep(n: nat)
    ensures ScriptNum(0) == []
    ensures n > 0 ==> ScriptNum(n) == (if n < 0x100 && n >= 0x80 then [n, 0] else [n % 0x100]) + ScriptNum(n / 0x100)
  {
  }

  /** The BIP 34 part: data bytes first, then the opcode in front of them and the script length. */
  method PutHeight(buf: array<Byte>, height: int) returns (end: Option<nat>)
    requires buf.Length == 256 && (height >= 0 ==> |ScriptNum(height)| <= 9)
    modifies buf
    ensures end.Some? <==> height >= 0
    ensures height >= 0 ==>
              && end == Some(42 + |HeightScript(height)|)
              && buf[..end.value] == old(buf[..41]) + [|HeightScript(height)|] + HeightScript(height)
  {
    hide ScriptNum;
    ghost var head := buf[..41];
    var size := 43;
    if 1 <= height <= 16 {
      buf[42] := height + 0x50;
      buf[size] := 0x00;
      size := size + 1;
      assert buf[42..size] == HeightScript(height);
    } else {
      ghost var front := buf[..43];
      var written := PutScriptNum(buf, size, height);
      if written.None? {
        return None;
      }
      size := written.value;
      DataParts(buf[..size], front, ScriptNum(height));
      assert buf[..41] == head && buf[43..size] == ScriptNum(height);
      buf[42] := size - 43;
      assert buf[42..size] == [buf[42]] + buf[43..size];
    }
    assert buf[..size] == head + [buf[41]] + HeightScript(height);
    buf[41] := size - 42;
    assert buf[..size] == head + [buf[41]] + buf[42..size];
    return Some(size);
  }

  lemma DataParts(s: seq<Byte>, front: seq<Byte>, data: seq<Byte>)
    requires |front| == 43 && s == front + data
    ensures s[..41] == front[..41] && s[43..] == data
  {
  }

  method PutBefore(buf: array<Byte>)
    requires buf.Length == 256
    modifies buf
    ensures buf[..41] == BEFORE_SCRIPT
  {
    hide LittleEndian.Bytes;
    assert buf[..0] == [];
    var size := PutLe32(buf, 0, 1);
    size := PutByte(buf, size, 1);
    size := PutBytes(buf, size, LittleEndian.Bytes(0, 32));
    size := PutLe32(buf, size, 0xffffffff);
  }

  method PutAfter(buf: array<Byte>, start: nat, segwit: bool, value: nat, pkScript: seq<Byte>, commitment: Digest)
    returns (size: nat)
    requires buf.Length == 256 && start <= 52 && |pkScript| <= 67
    modifies buf
    ensures size <= 256 && buf[..size] == old(buf[..start]) + AfterScript(segwit, value, pkScript, commitment)
  {
    hide LittleEndian.Bytes, Payment, CommitmentOutput;
    ghost var head, payment := buf[..start], Payment(segwit, value, pkScript);
    size := PutPayment(buf, start, segwit, value, pkScript);
    if segwit {
      size := PutCommitment(buf, size, commitment);
      assert buf[..size] == head + (payment + CommitmentOutput(commitment));
    } else {
      assert buf[..size] == head + (payment + []);
    }
    size := PutLe32(buf, size, 0);
  }

  method PutPayment(buf: array<Byte>, start: nat, segwit: bool, value: nat, pkScript: seq<Byte>) returns (size: nat)
    requires start + 14 + |pkScript| <= buf.Length && |pkScript| < 256
    modifies buf
    ensures size == start + 14 + |pkScript|
    ensures buf[..size] == old(buf[..start]) + Payment(segwit, value, pkScript)
  {
    hide LittleEndian.Bytes;
    ghost var head := buf[..start];
    size := PutLe32(buf, start, 0xffffffff);
    size := PutByte(buf, size, if segwit then 2 else 1);
    ghost var sequence := LittleEndian.Bytes(0xffffffff, 4) + [if segwit then 2 else 1];
    assert buf[..size] == head + sequence;
    size := PutLe32(buf, size, value);
    size := PutLe32(buf, size, value / 0x1_0000_0000);
    ghost var amount := sequence + LittleEndian.Bytes(value, 4) + LittleEndian.Bytes(value / 0x1_0000_0000, 4);
    assert buf[..size] == head + amount;
    size := PutByte(buf, size, |pkScript|);
    size := PutBytes(buf, size, pkScript);
  }

  method PutCommitment(buf: array<Byte>, start: nat, commitment: Digest) returns (size: nat)
    requires start + 47 <= buf.Length
    modifies buf
    ensures size == start + 47 && buf[..size] == old(buf[..start]) + CommitmentOutput(commitment)
  {
    hide LittleEndian.Bytes;
    size := PutBytes(buf, start, LittleEndian.Bytes(0, 8));
    size := PutBytes(buf, size, COMMITMENT_HEADER);
    size := PutBytes(buf, size, commitment);
  }

  /** gbtWorkDecode's coinbase, for any 64-bit height and value; the source panics exactly on a negative height.
      PayToAddrScript's scripts are at most 67 bytes long. */
  method BuildCoinbase(segwit: bool, height: int, value: nat, pkScript: seq<Byte>, commitment: Digest)
    returns (cbtx: Option<seq<Byte>>)
    requires -0x8000_0000_0000_0000 <= height < 0x8000_0000_0000_0000
    requires value < 0x1_0000_0000_0000_0000 && |pkScript| <= 67
    ensures cbtx.Some? <==> height >= 0
    ensures height >= 0 ==>
              && |ScriptNum(height)| <= 9
              && cbtx == Some(Transaction(segwit, height, value, pkScript, commitment))
  {
    hide AfterScript, HeightScript, ScriptNum;
    if height >= 0 {
      HeightFits(height);
      HeightScriptLength(height);
    }
    var buf := new Byte[256](_ => 0);
    PutBefore(buf);
    var end := PutHeight(buf, height);
    if end.None? {
      return None;
    }
    var size := PutAfter(buf, end.value, segwit, value, pkScript, commitment);
    return Some(buf[..size]);
  }

  lemma HeightScriptLength(height: nat)
    requires |ScriptNum(height)| <= 9
    ensures |HeightScript(height)| <= 10
  {
  }

  lemma HeightFits(height: nat)
    requires height < 0x8000_0000_0000_0000
    ensures |ScriptNum(height)| <= 9
  {
    assert LittleEndian.Power256(8) == 0x1_0000_0000_0000_0000 by {
      assert LittleEndian.Power256(4) == 0x1_0000_0000;
    }
    ScriptNumLength(height, 8);
  }

  // ---------------------------------------------------------------- reading it back

  datatype Push = Data(bytes: seq<Byte>, next: nat) | SmallInt(value: nat, next: nat) | NotAPush

  /** The script operation at `at`, as far as push operations go. */
  function ParsePush(script: seq<Byte>, at: nat): Push {
    if at >= |script| then NotAPush
    else
      var op := script[at];
      if op <= 75 then
        if at + 1 + op <= |script| then Data(script[at + 1..at + 1 + op], at + 1 + op) else NotAPush
      else if op == 0x4c then
        if at + 1 < |script| && at + 2 + script[at + 1] <= |script|
        then Data(script[at + 2..at + 2 + script[at + 1]], at + 2 + script[at + 1]) else NotAPush
      else if 0x51 <= op <= 0x60 then SmallInt(op - 0x50, at + 1)
      else NotAPush
  }

  predicate HasScript(tx: seq<Byte>) {
    |tx| >= 42 && 42 + tx[41] <= |tx|
  }

  /** Offset of the first byte behind the input script. */
  function ScriptEnd(tx: seq<Byte>): (end: nat)
    requires HasScript(tx)
    ensures 42 <= end <= |tx| && tx[41] == end - 42
  {
    var len: int := tx[41];
    42 + len
  }

  /** The script a transaction with one input carries, located by its length byte. */
  function InputScript(tx: seq<Byte>): (script: seq<Byte>)
    requires HasScript(tx)
    ensures |script| == tx[41]
  {
    tx[42..ScriptEnd(tx)]
  }

  /** BIP 34: whatever follows the height script, the first operation of the input script gives the height back,
      as a small-integer opcode up to 16 and as the minimal script number from 17 on (and for 0). */
  lemma HeightIsFirstPush(height: nat, rest: seq<Byte>)
    requires |ScriptNum(height)| <= 9
    ensures var push := ParsePush(HeightScript(height) + rest, 0);
            if 1 <= height <= 16 then push == SmallInt(height, 1)
            else push == Data(ScriptNum(height), |HeightScript(height)|)
                 && DecodeNum(push.bytes) == height && Minimal(push.bytes)
  {
    hide ScriptNum, DecodeNum, Minimal;
    ScriptNumDecodes(height);
    var script := HeightScript(height) + rest;
    if !(1 <= height <= 16) {
      assert script[1..1 + |ScriptNum(height)|] == ScriptNum(height);
    }
  }

  lemma TransactionParts(segwit: bool, height: nat, value: nat, pkScript: seq<Byte>, commitment: Digest)
    requires |ScriptNum(height)| <= 9 && |pkScript| < 256
    ensures var tx := Transaction(segwit, height, value, pkScript, commitment);
            && |HeightScript(height)| <= 10
            && HasScript(tx) && tx[41] == |HeightScript(height)|
            && InputScript(tx) == HeightScript(height)
            && tx[ScriptEnd(tx)..] == AfterScript(segwit, value, pkScript, commitment)
  {
    hide HeightScript, AfterScript, LittleEndian.Bytes;
    HeightScriptLength(height);
    var tx := Transaction(segwit, height, value, pkScript, commitment);
    var script, after := HeightScript(height), AfterScript(segwit, value, pkScript, commitment);
    assert |BEFORE_SCRIPT| == 41;
    assert tx[42..42 + |script|] == script;
    assert tx[42 + |script|..] == after;
  }

  // ---------------------------------------------------------------- splicing the signature

  /** How many push bytes are put in front of the signature; the first test is done on a byte that can wrap. */
  function PushLen(oldLen: Byte, sigLen: nat): (n: nat) {
    if (oldLen + sigLen % 256) % 256 < 76 then 1
    else if oldLen + 2 + sigLen > 100 then 0
    else 2
  }

  function PushBytes(oldLen: Byte, sigLen: nat): (s: seq<Byte>)
    ensures |s| == PushLen(oldLen, sigLen)
  {
    match PushLen(oldLen, sigLen)
    case 0 => []
    case 1 => [sigLen % 256]
    case _ => [0x4c, sigLen % 256]
  }

  /** `cbtx[41] += byte(n)`. */
  function AddBytes(b: Byte, n: nat): Byte {
    var sum: int := b + n % 256;
    sum % 256
  }

  function Spliced(cbtx: seq<Byte>, xsig: seq<Byte>): (r: seq<Byte>)
    requires HasScript(cbtx)
  {
    if xsig == [] then cbtx
    else
      var added := PushBytes(cbtx[41], |xsig|) + xsig;
      var end := ScriptEnd(cbtx);
      cbtx[..41] + [AddBytes(cbtx[41], |added|)] + cbtx[42..end] + added + cbtx[end..]
  }

  method SpliceSignature(cbtx: seq<Byte>, xsig: seq<Byte>) returns (r: seq<Byte>)
    requires HasScript(cbtx)
    ensures r == Spliced(cbtx, xsig)
  {
    if |xsig| == 0 {
      return cbtx;
    }
    hide PushLen, PushBytes, AddBytes;
    var ssigEnd := ScriptEnd(cbtx);
    var pushLen := PushLen(cbtx[41], |xsig|);
    var n := |xsig| + pushLen;
    var newCbtx := new Byte[|cbtx| + n](_ => 0);
    ghost var added := PushBytes(cbtx[41], |xsig|) + xsig;
    PutSplice(newCbtx, cbtx, ssigEnd, xsig);
    var len := AddBytes(cbtx[41], n);
    newCbtx[41] := len;
    r := newCbtx[..];
    PatchLength(cbtx, ssigEnd, added, len);
  }

  /** Old script, push opcodes, signature and the rest, one behind the other. */
  method PutSplice(buf: array<Byte>, cbtx: seq<Byte>, ssigEnd: nat, xsig: seq<Byte>)
    requires HasScript(cbtx) && ssigEnd == ScriptEnd(cbtx)
    requires buf.Length == |cbtx| + |xsig| + PushLen(cbtx[41], |xsig|)
    modifies buf
    ensures buf[..] == cbtx[..ssigEnd] + (PushBytes(cbtx[41], |xsig|) + xsig) + cbtx[ssigEnd..]
  {
    hide PushLen, PushBytes, ScriptEnd;
    ghost var head, push, tail := cbtx[..ssigEnd], PushBytes(cbtx[41], |xsig|), cbtx[ssigEnd..];
    assert buf[..0] == [];
    var size := PutBytes(buf, 0, cbtx[..ssigEnd]);
    assert buf[..size] == head;
    size := PutPush(buf, size, cbtx[41], |xsig|);
    size := PutBytes(buf, size, xsig);
    size := PutBytes(buf, size, cbtx[ssigEnd..]);
    assert buf[..] == buf[..size];
    assert head + push + xsig + tail == head + (push + xsig) + tail;
  }

  lemma PatchLength(cbtx: seq<Byte>, end: nat, added: seq<Byte>, len: Byte)
    requires 42 <= end <= |cbtx|
    ensures (cbtx[..end] + added + cbtx[end..])[41 := len]
         == cbtx[..41] + [len] + cbtx[42..end] + added + cbtx[end..]
  {
    assert cbtx[..end][41 := len] == cbtx[..41] + [len] + cbtx[42..end];
  }

  /** The push opcode bytes in front of the signature. */
  method PutPush(buf: array<Byte>, start: nat, oldLen: Byte, sigLen: nat) returns (size: nat)
    requires start + PushLen(oldLen, sigLen) <= buf.Length
    modifies buf
    ensures size == start + PushLen(oldLen, sigLen)
    ensures buf[..size] == old(buf[..start]) + PushBytes(oldLen, sigLen)
  {
    var pushLen := PushLen(oldLen, sigLen);
    size := start;
    assert buf[..start] + [] == buf[..start];
    if pushLen == 2 {
      size := PutByte(buf, size, 0x4c);
    }
    if pushLen > 0 {
      size := PutByte(buf, size, sigLen % 256);
    }
  }

  /** The splice keeps everything outside the script length and the inserted bytes: the 41 bytes before it, the
      old script, and the sequence, outputs and lock time behind it. */
  lemma SpliceFrame(cbtx: seq<Byte>, xsig: seq<Byte>)
    requires HasScript(cbtx)
    ensures var r, end := Spliced(cbtx, xsig), ScriptEnd(cbtx);
            var n := |r| - |cbtx|;
            && n == (if xsig == [] then 0 else PushLen(cbtx[41], |xsig|) + |xsig|)
            && r[..41] == cbtx[..41] && r[42..end] == cbtx[42..end] && r[end + n..] == cbtx[end..]
            && (r[41] == cbtx[41] + n <==> cbtx[41] + n < 256)
  {
    hide PushLen, PushBytes, ScriptEnd;
    var end := ScriptEnd(cbtx);
    if xsig != [] {
      var added := PushBytes(cbtx[41], |xsig|) + xsig;
      SpliceParts(cbtx[..41], AddBytes(cbtx[41], |added|), cbtx[42..end], added, cbtx[end..]);
    }
  }

  lemma SpliceParts(head: seq<Byte>, len: Byte, middle: seq<Byte>, added: seq<Byte>, tail: seq<Byte>)
    requires |head| == 41
    ensures var r, end := head + [len] + middle + added + tail, 42 + |middle|;
            r[..41] == head && r[41] == len && r[42..end] == middle && r[end + |added|..] == tail
  {
    var front := head + [len];
    var r := front + middle + added + tail;
    assert r[..42] == front;
  }

  /** The bytes added by the splice are exactly one push of the signature, and byte 41 is the new script length. */
  predicate OnePush(cbtx: seq<Byte>, xsig: seq<Byte>)
    requires HasScript(cbtx)
  {
    var r, n := Spliced(cbtx, xsig), |Spliced(cbtx, xsig)| - |cbtx|;
    && r[41] == cbtx[41] + n
    && HasScript(r) && r[42..ScriptEnd(cbtx)] == InputScript(cbtx)
    && ParsePush(InputScript(r), cbtx[41]) == Data(xsig, r[41])
  }

  /** The splice is one push of the signature exactly when script, signature and a two-byte push header fit the
      100 bytes a coinbase script may have; a longer signature is inserted without a push, or behind an opcode
      whose byte arithmetic has wrapped. */
  lemma OnePushIff(cbtx: seq<Byte>, xsig: seq<Byte>)
    requires HasScript(cbtx) && xsig != []
    ensures OnePush(cbtx, xsig) <==> cbtx[41] + |xsig| + 2 <= 100
    ensures OnePush(cbtx, xsig) ==> Spliced(cbtx, xsig)[41] <= 100
  {
    var oldLen, m := cbtx[41], |xsig|;
    var r, end := Spliced(cbtx, xsig), ScriptEnd(cbtx);
    var push := PushBytes(oldLen, m);
    var n := |push| + m;
    SpliceFrame(cbtx, xsig);
    if r[41] == oldLen + n {
      var script := InputScript(r);
      assert r == cbtx[..41] + [r[41]] + cbtx[42..end] + (push + xsig) + cbtx[end..];
      assert script[oldLen..] == push + xsig;
      ParseAdded(script, oldLen, push, xsig);
      if oldLen + m + 2 <= 100 {
        assert OnePush(cbtx, xsig);
      }
    }
  }

  lemma ParseAdded(script: seq<Byte>, oldLen: Byte, push: seq<Byte>, xsig: seq<Byte>)
    requires oldLen <= |script| <= 255 && xsig != []
    requires push == PushBytes(oldLen, |xsig|) && script[oldLen..] == push + xsig
    ensures ParsePush(script, oldLen) == Data(xsig, |script|) <==> oldLen + |xsig| + 2 <= 100
  {
    var m := |xsig|;
    assert |script| == oldLen + |push| + m;
    assert script[oldLen] == (push + xsig)[0];
    if |push| == 1 {
      assert script[oldLen + 1..] == xsig;
    } else if |push| == 2 {
      assert script[oldLen + 1] == (push + xsig)[1];
      assert script[oldLen + 2..] == xsig;
    }
  }

  lemma SplicedScript(cbtx: seq<Byte>, xsig: seq<Byte>)
    requires HasScript(cbtx)
    requires var r := Spliced(cbtx, xsig); r[41] == cbtx[41] + (|r| - |cbtx|)
    ensures var r := Spliced(cbtx, xsig);
            && HasScript(r)
            && InputScript(r) == InputScript(cbtx)
                               + (if xsig == [] then [] else PushBytes(cbtx[41], |xsig|) + xsig)
            && r[ScriptEnd(r)..] == cbtx[ScriptEnd(cbtx)..]
  {
    var r, end := Spliced(cbtx, xsig), ScriptEnd(cbtx);
    SpliceFrame(cbtx, xsig);
    if xsig != [] {
      var added := PushBytes(cbtx[41], |xsig|) + xsig;
      var head := cbtx[..41] + [AddBytes(cbtx[41], |added|)];
      assert r == head + (InputScript(cbtx) + added) + cbtx[end..];
      assert r[42..ScriptEnd(r)] == InputScript(cbtx) + added;
    }
  }

  /** The coinbase a miner works on: built for a height, then given the signature. As long as the script length
      fits its byte, the script still opens with the BIP 34 height, and everything behind the script is what was
      built. */
  lemma SignedCoinbase(segwit: bool, height: nat, value: nat, pkScript: seq<Byte>, commitment: Digest, xsig: seq<Byte>)
    requires |ScriptNum(height)| <= 9 && |pkScript| < 256
    ensures var tx := Transaction(segwit, height, value, pkScript, commitment);
            && HasScript(tx)
            && var r := Spliced(tx, xsig);
            && (tx[41] + (|r| - |tx|) < 256 <==> r[41] == tx[41] + (|r| - |tx|))
            && (tx[41] + (|r| - |tx|) < 256 ==>
                  && HasScript(r)
                  && r[ScriptEnd(r)..] == AfterScript(segwit, value, pkScript, commitment)
                  && (var push := ParsePush(InputScript(r), 0);
                      if 1 <= height <= 16 then push == SmallInt(height, 1)
                      else
                        && push == Data(ScriptNum(height), tx[41])
                        && DecodeNum(push.bytes) == height && Minimal(push.bytes)))
  {
    hide Transaction, AfterScript, ScriptNum, DecodeNum, Minimal, Spliced, ParsePush, PushBytes, HeightScript;
    TransactionParts(segwit, height, value, pkScript, commitment);
    var tx := Transaction(segwit, height, value, pkScript, commitment);
    var r := Spliced(tx, xsig);
    SpliceFrame(tx, xsig);
    if r[41] == tx[41] + (|r| - |tx|) {
      SplicedScript(tx, xsig);
      HeightIsFirstPush(height, if xsig == [] then [] else PushBytes(tx[41], |xsig|) + xsig);
    }
  }

  // ---------------------------------------------------------------- what is spliced in

  datatype AuxError = AuxTooLong(size: nat) | AuxInvalid(error: Hex.HexError)

  /** The signature followed by those auxiliary values that still fit 100 bytes, in the order they come. */
  function Signature(xsig: seq<Byte>, aux: seq<string>): Result<seq<Byte>, AuxError>
    decreases |aux|
  {
    if aux == [] then Success(xsig)
    else
      var n := |aux[0]| / 2;
      if n > 100 then Failure(AuxTooLong(n))
      else
        match Hex.Decode(100, aux[0])
        case Failure(e) => Failure(AuxInvalid(e))
        case Success(bytes) => Signature(if |xsig| + n <= 100 then xsig + bytes else xsig, aux[1..])
  }

  method GatherSignature(coinbaseSig: seq<Byte>, coinbaseAux: seq<string>) returns (r: Result<seq<Byte>, AuxError>)
    ensures r == Signature(coinbaseSig, coinbaseAux)
  {
    var xsig := coinbaseSig;
    for i := 0 to |coinbaseAux|
      invariant Signature(coinbaseSig, coinbaseAux) == Signature(xsig, coinbaseAux[i..])
    {
      var n := |coinbaseAux[i]| / 2;
      if n > 100 {
        return Failure(AuxTooLong(n));
      }
      var buf := Hex.Decode(100, coinbaseAux[i]);
      if buf.Failure? {
        return Failure(AuxInvalid(buf.error));
      }
      if |xsig| + n <= 100 {
        xsig := xsig + buf.value;
      }
    }
    return Success(xsig);
  }

  /** Auxiliary data never pushes the inserted bytes over 100, and never displaces the configured signature. */
  lemma {:induction false} SignatureBounds(xsig: seq<Byte>, aux: seq<string>)
    requires Signature(xsig, aux).Success?
    ensures var r := Signature(xsig, aux).value;
            xsig <= r && (|r| <= 100 || r == xsig)
    decreases |aux|
  {
    if aux != [] {
      var n := |aux[0]| / 2;
      var next := if |xsig| + n <= 100 then xsig + Hex.Decode(100, aux[0]).value else xsig;
      SignatureBounds(next, aux[1..]);
    }
  }
}
