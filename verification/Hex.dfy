/** Hexadecimal text: what Go's encoding/hex writes and reads, and the miner's bounded decoder. */
module Hex {
  import opened Numerals
  import opened Wrappers

  datatype HexError = EmptyString | OddLength | BufferTooSmall | InvalidHex

  function Nibble(d: nat): (c: char)
    requires d < 16
    ensures NibbleValue(c) == d
  {
    if d < 10 then '0' + d as char else 'a' + (d - 10) as char
  }

  /** Both letter cases are read, only lower case is written. */
  function NibbleValue(c: char): (d: int)
    ensures -1 <= d < 16
  {
    if '0' <= c <= '9' then (c - '0') as int
    else if 'a' <= c <= 'f' then (c - 'a') as int + 10
    else if 'A' <= c <= 'F' then (c - 'A') as int + 10
    else -1
  }

  function EncodeToString(bytes: seq<Byte>): (s: string)
    ensures |s| == 2 * |bytes|
  {
    if bytes == [] then "" else [Nibble(bytes[0] / 16), Nibble(bytes[0] % 16)] + EncodeToString(bytes[1..])
  }

  predicate IsHex(s: string) {
    |s| % 2 == 0 && forall i :: 0 <= i < |s| ==> NibbleValue(s[i]) != -1
  }

  function HexBytes(s: string): (bytes: seq<Byte>)
    requires IsHex(s)
    ensures |bytes| == |s| / 2
  {
    if s == "" then [] else [NibbleValue(s[0]) * 16 + NibbleValue(s[1])] + HexBytes(s[2..])
  }

  /** Hex text is read back to the bytes it was written from. */
  lemma {:induction false} HexRoundTrip(bytes: seq<Byte>)
    ensures IsHex(EncodeToString(bytes)) && HexBytes(EncodeToString(bytes)) == bytes
  {
    if bytes != [] {
      var s, rest := EncodeToString(bytes), EncodeToString(bytes[1..]);
      HexRoundTrip(bytes[1..]);
      assert s[2..] == rest;
      forall i | 0 <= i < |s| ensures NibbleValue(s[i]) != -1 {
        if i >= 2 { assert s[i] == rest[i - 2]; }
      }
    }
  }

  lemma EncodeInjective(a: seq<Byte>, b: seq<Byte>)
    requires EncodeToString(a) == EncodeToString(b)
    ensures a == b
  {
    HexRoundTrip(a);
    HexRoundTrip(b);
  }

  /** Two lower-case digits a byte, the high one first. */
  lemma {:induction false} HexDigits(bytes: seq<Byte>)
    ensures forall k :: 0 <= k < |bytes| ==>
              && EncodeToString(bytes)[2 * k] == "0123456789abcdef"[bytes[k] / 16]
              && EncodeToString(bytes)[2 * k + 1] == "0123456789abcdef"[bytes[k] % 16]
  {
    if bytes != [] {
      var s, rest := EncodeToString(bytes), EncodeToString(bytes[1..]);
      HexDigits(bytes[1..]);
      forall k | 0 <= k < |bytes|
        ensures s[2 * k] == "0123456789abcdef"[bytes[k] / 16] && s[2 * k + 1] == "0123456789abcdef"[bytes[k] % 16]
      {
        if k > 0 {
          assert s[2 * k] == rest[2 * (k - 1)] && s[2 * k + 1] == rest[2 * (k - 1) + 1];
          assert bytes[1..][k - 1] == bytes[k];
        } else {
          NibbleDigit(bytes[0] / 16);
          NibbleDigit(bytes[0] % 16);
        }
      }
    }
  }

  lemma NibbleDigit(d: nat)
    requires d < 16
    ensures Nibble(d) == "0123456789abcdef"[d]
  {
  }

  /** Digits, and letters in either case, are read as their position; nothing else is read. */
  lemma NibbleIs(c: char, d: nat)
    ensures d < 16 ==>
              NibbleValue("0123456789abcdef"[d]) == d && NibbleValue("0123456789ABCDEF"[d]) == d
    ensures NibbleValue(c) == -1 <==> c !in "0123456789abcdef" && c !in "0123456789ABCDEF"
  {
    var lower, upper := "0123456789abcdef", "0123456789ABCDEF";
    var v := NibbleValue(c);
    if v != -1 {
      assert c == lower[v] || c == upper[v];
    }
  }

  /** decodeHex into a buffer of the given size: the decoded prefix, or why there is none. */
  function Decode(size: nat, s: string): (r: Result<seq<Byte>, HexError>)
    ensures r.Success? <==> s != "" && IsHex(s) && |s| / 2 <= size
    ensures r.Success? ==> r.value == HexBytes(s)
  {
    if s == "" then Failure(EmptyString)
    else if |s| % 2 != 0 then Failure(OddLength)
    else if |s| / 2 > size then Failure(BufferTooSmall)
    else if !IsHex(s) then Failure(InvalidHex)
    else Success(HexBytes(s))
  }

  /** What the encoder writes fits a buffer exactly when the bytes do; only empty text is refused besides. */
  lemma DecodeEncoded(size: nat, bytes: seq<Byte>)
    ensures Decode(size, EncodeToString(bytes))
         == if bytes == [] then Failure(EmptyString)
            else if |bytes| > size then Failure(BufferTooSmall)
            else Success(bytes)
  {
    HexRoundTrip(bytes);
  }

  /** The decoded bytes go to the front of the buffer; on an error the buffer is untouched. */
  method DecodeHex(p: array<Byte>, s: string) returns (e: Option<HexError>)
    modifies p
    ensures match Decode(p.Length, s)
            case Success(bytes) => e == None && p[..] == bytes + old(p[|bytes|..])
            case Failure(error) => e == Some(error) && p[..] == old(p[..])
  {
    if s == "" {
      return Some(EmptyString);
    }
    if |s| % 2 != 0 {
      return Some(OddLength);
    }
    if |s| / 2 > p.Length {
      return Some(BufferTooSmall);
    }
    if !IsHex(s) {
      return Some(InvalidHex);
    }
    var decoded := HexBytes(s);
    for i := 0 to |decoded|
      invariant forall k :: 0 <= k < i ==> p[k] == decoded[k]
      invariant forall k :: i <= k < p.Length ==> p[k] == old(p[k])
    {
      p[i] := decoded[i];
    }
    return None;
  }
}
