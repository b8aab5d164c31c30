/** Little-endian integers and the variable-length integer of the wire format. */
module LittleEndian {
  import opened Numerals
  import opened Wrappers

  function Power256(width: nat): (p: nat)
    ensures p > 0
  {
    if width == 0 then 1 else 256 * Power256(width - 1)
  }

  /** The low `width` bytes of n, least significant first. */
  function Bytes(n: nat, width: nat): (s: seq<Byte>)
    ensures |s| == width
  {
    if width == 0 then [] else [n % 256] + Bytes(n / 256, width - 1)
  }

  function Read(s: seq<Byte>): nat {
    if s == [] then 0 else s[0] + 256 * Read(s[1..])
  }

  // ---------------------------------------------------------------- the bytes one by one

  lemma NoBytes(n: nat)
    ensures Bytes(n, 0) == []
  {
  }

  lemma FirstByte(n: nat, width: nat)
    requires width > 0
    ensures Bytes(n, width) == [n % 256] + Bytes(n / 256, width - 1)
  {
  }

  lemma TwoBytes(n: nat)
    ensures Bytes(n, 2) == [n % 256, n / 256 % 256]
  {
    hide Bytes;
    FirstByte(n, 2);
    FirstByte(n / 256, 1);
    NoBytes(n / 256 / 256);
  }

  lemma FourMore(n: nat, width: nat)
    ensures var b, c, d := n / 256, n / 256 / 256, n / 256 / 256 / 256;
            Bytes(n, width + 4) == [n % 256, b % 256, c % 256, d % 256] + Bytes(d / 256, width)
  {
    hide Bytes;
    FirstByte(n, width + 4);
    FirstByte(n / 256, width + 3);
    FirstByte(n / 256 / 256, width + 2);
    FirstByte(n / 256 / 256 / 256, width + 1);
  }

  lemma FourBytes(n: nat)
    ensures Bytes(n, 4) == [n % 256, n / 0x100 % 256, n / 0x1_0000 % 256, n / 0x100_0000 % 256]
  {
    hide Bytes;
    FourMore(n, 0);
    NoBytes(n / 256 / 256 / 256 / 256);
    assert n / 256 / 256 == n / 0x1_0000 && n / 256 / 256 / 256 == n / 0x100_0000;
  }

  /** Two four-byte writes are one eight-byte integer. */
  lemma EightBytes(value: nat)
    ensures Bytes(value, 4) + Bytes(value / 0x1_0000_0000, 4) == Bytes(value, 8)
  {
    hide Bytes;
    var b, c, d := value / 256, value / 256 / 256, value / 256 / 256 / 256;
    FourMore(value, 4);
    FourMore(value, 0);
    assert d / 256 == value / 0x1_0000_0000;
    NoBytes(d / 256);
  }

  // ---------------------------------------------------------------- reading them back

  lemma {:induction false} ReadBytes(n: nat, width: nat)
    ensures Read(Bytes(n, width)) == n % Power256(width)
  {
    if width == 0 {
    } else {
      ReadBytes(n / 256, width - 1);
      SplitModulus(n, Power256(width - 1));
    }
  }

  lemma SplitModulus(n: nat, p: nat)
    requires p > 0
    ensures n % (256 * p) == n % 256 + 256 * ((n / 256) % p)
  {
    var q, r := n / 256, n % 256;
    var a, b := q / p, q % p;
    assert n == 256 * q + r;
    QuotientRemainder(q, p);
    assert q == a * p + b;
    assert n == a * (256 * p) + (256 * b + r) by {
      assert 256 * (a * p) == a * (256 * p);
    }
    DivModOf(a, 256 * b + r, 256 * p);
  }

  // ---------------------------------------------------------------- variable-length integers

  function VarInt(n: nat): (s: seq<Byte>)
    ensures 1 <= |s| <= 9
  {
    if n < 0xfd then [n]
    else if n <= 0xffff then [0xfd] + Bytes(n, 2)
    else if n <= 0xffffffff then [0xfe] + Bytes(n, 4)
    else [0xff] + Bytes(n, 8)
  }

  /** The integer at the front of s and what follows it. */
  function ReadVarInt(s: seq<Byte>): Option<(nat, seq<Byte>)> {
    if s == [] then None
    else
      var width := if s[0] < 0xfd then 0 else if s[0] == 0xfd then 2 else if s[0] == 0xfe then 4 else 8;
      if |s| < 1 + width then None
      else if width == 0 then Some((s[0], s[1..]))
      else Some((Read(s[1..1 + width]), s[1 + width..]))
  }

  method VarintEncode(p: array<Byte>, n: nat) returns (size: nat)
    requires p.Length >= 9 && n < 0x1_0000_0000_0000_0000
    modifies p
    ensures size == |VarInt(n)| && p[..size] == VarInt(n)
  {
    if n < 0xfd {
      p[0] := n;
      return 1;
    }
    if n <= 0xffff {
      p[0] := 0xfd;
      WriteBytes(p, n, 2);
      return 3;
    }
    if n <= 0xffffffff {
      p[0] := 0xfe;
      WriteBytes(p, n, 4);
      return 5;
    }
    p[0] := 0xff;
    WriteBytes(p, n, 8);
    return 9;
  }

  /** `p[i] = byte(n & 0xff); n >>= 8` for i = 1..width. */
  method WriteBytes(p: array<Byte>, n: nat, width: nat)
    requires p.Length > width
    modifies p
    ensures p[..1 + width] == [old(p[0])] + Bytes(n, width)
  {
    var rest := n;
    for i := 1 to width + 1
      invariant p[..i] + Bytes(rest, width + 1 - i) == [old(p[0])] + Bytes(n, width)
    {
      ghost var written := p[..i];
      p[i] := rest % 256;
      assert p[..i + 1] == written + [rest % 256];
      rest := rest / 256;
    }
    assert p[..1 + width] + [] == p[..1 + width];
  }

  lemma PowerIs()
    ensures Power256(2) == 0x1_0000 && Power256(4) == 0x1_0000_0000 && Power256(8) == 0x1_0000_0000_0000_0000
  {
    assert Power256(1) == 256 && Power256(3) == 0x100_0000 && Power256(6) == 0x1_0000_0000_0000;
  }

  /** Every 64-bit integer is read back, and the bytes behind it are left alone. */
  lemma VarIntRoundTrip(n: nat, rest: seq<Byte>)
    requires n < 0x1_0000_0000_0000_0000
    ensures ReadVarInt(VarInt(n) + rest) == Some((n, rest))
  {
    PowerIs();
    var width := |VarInt(n)| - 1;
    var s := VarInt(n) + rest;
    assert s[1 + width..] == rest;
    if n >= 0xfd {
      ReadBytes(n, width);
      assert s[1..1 + width] == Bytes(n, width);
    }
  }

  /** The four widths and their bytes, the low one first. */
  lemma VarIntBytes(n: nat)
    ensures n <= 252 ==> VarInt(n) == [n]
    ensures 253 <= n <= 0xffff ==> VarInt(n) == [253, n % 256, n / 256]
    ensures 0x1_0000 <= n <= 0xffff_ffff
        ==> VarInt(n) == [254, n % 256, n / 0x100 % 256, n / 0x1_0000 % 256, n / 0x100_0000]
    ensures 0x1_0000_0000 <= n < 0x1_0000_0000_0000_0000
        ==> var high := n / 0x1_0000_0000;
            VarInt(n) == [255, n % 256, n / 0x100 % 256, n / 0x1_0000 % 256, n / 0x100_0000 % 256,
                          high % 256, high / 0x100 % 256, high / 0x1_0000 % 256, high / 0x100_0000]
  {
    hide Bytes;
    if n <= 252 {
    } else if n <= 0xffff {
      TwoBytes(n);
    } else if n <= 0xffff_ffff {
      FourBytes(n);
    } else {
      EightBytes(n);
      FourBytes(n);
      FourBytes(n / 0x1_0000_0000);
    }
  }
}
