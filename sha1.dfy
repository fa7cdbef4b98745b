/**
 * Git object ids (SHA1.cs): 20 bytes, written as 40 lowercase hexadecimal
 * characters. An id's bytes are never changed after construction, so an id
 * is a value here; the private `str` cache is written and never read, so it
 * is not modelled.
 */
module Sha1 {
  import opened Base
  import opened Text

  newtype byte = x: int | 0 <= x < 256

  /** The id whose 40 characters are all '0'. */
  const EmptyID: string := "0000000000000000000000000000000000000000"

  /** The digit table of String(). */
  const HexDigits: string := "0123456789abcdef"

  /** Entry `n` of the digit table. */
  function HexDigit(n: nat): (c: char)
    requires n < 16
  {
    if n < 10 then ('0' as int + n) as char else ('a' as int + n - 10) as char
  }

  /** The table holds exactly the sixteen digits of HexDigit, in order. */
  lemma HexDigitsTable(n: nat)
    requires n < 16
    ensures HexDigits[n] == HexDigit(n)
  {
  }

  /** The two lowercase hexadecimal characters of a byte, high nibble first. */
  function HexPair(b: byte): (s: string)
    ensures |s| == 2
  {
    [HexDigit(b as nat / 16), HexDigit(b as nat % 16)]
  }

  /** The lowercase hexadecimal form of a byte string. */
  function HexString(bs: seq<byte>): (s: string)
    ensures |s| == 2 * |bs|
  {
    if |bs| == 0 then "" else HexPair(bs[0]) + HexString(bs[1..])
  }

  lemma {:induction false} HexStringAppend(a: seq<byte>, b: seq<byte>)
    ensures HexString(a + b) == HexString(a) + HexString(b)
  {
    if |a| > 0 {
      assert (a + b)[1..] == a[1..] + b;
      HexStringAppend(a[1..], b);
    } else {
      assert a + b == b;
    }
  }

  /** Character 2k of the hex form is the high nibble of byte k, character 2k+1 its low nibble. */
  lemma {:induction false} HexStringAt(bs: seq<byte>, k: nat)
    requires k < |bs|
    ensures HexString(bs)[2 * k] == HexDigit(bs[k] as nat / 16)
    ensures HexString(bs)[2 * k + 1] == HexDigit(bs[k] as nat % 16)
  {
    if k > 0 {
      HexStringAt(bs[1..], k - 1);
    }
  }

  predicate IsLowerHex(c: char) {
    ('0' <= c <= '9') || ('a' <= c <= 'f')
  }

  predicate IsHexDigit(c: char) {
    ('0' <= c <= '9') || ('a' <= c <= 'f') || ('A' <= c <= 'F')
  }

  /** The value of a hexadecimal digit of either case. */
  function HexValue(c: char): (v: nat)
    requires IsHexDigit(c)
    ensures v < 16
    ensures IsLowerHex(c) ==> HexDigit(v) == c
  {
    if '0' <= c <= '9' then (c as int) - ('0' as int)
    else if 'a' <= c <= 'f' then (c as int) - ('a' as int) + 10
    else (c as int) - ('A' as int) + 10
  }

  lemma HexValueDigit(n: nat)
    requires n < 16
    ensures IsLowerHex(HexDigit(n)) && HexValue(HexDigit(n)) == n
  {
  }

  /**
   * Convert.ToByte(pair, 16) on a two-character string: two hexadecimal
   * digits of either case, or a '+' sign and one digit. A '-' sign is an
   * argument error for a base other than 10; anything else is a format error.
   */
  function ToByteHex(pair: string): (r: Result<byte>)
    requires |pair| == 2
    ensures r.Ok? <==> IsHexDigit(pair[1]) && (IsHexDigit(pair[0]) || pair[0] == '+')
  {
    if IsHexDigit(pair[0]) && IsHexDigit(pair[1]) then
      Ok((HexValue(pair[0]) * 16 + HexValue(pair[1])) as byte)
    else if pair[0] == '+' && IsHexDigit(pair[1]) then Ok(HexValue(pair[1]) as byte)
    else if pair[0] == '-' then Err(Argument("String cannot contain a minus sign if the base is not 10."))
    else Err(Format("Could not find any recognizable digits."))
  }

  /** Two lowercase digits convert to the byte whose hex pair they are, and back. */
  lemma ToByteHexPair(b: byte)
    ensures ToByteHex(HexPair(b)) == Ok(b)
  {
    var hi, lo := b as nat / 16, b as nat % 16;
    HexValueDigit(hi);
    HexValueDigit(lo);
  }

  lemma ToByteHexLower(pair: string)
    requires |pair| == 2 && IsLowerHex(pair[0]) && IsLowerHex(pair[1])
    ensures ToByteHex(pair).Ok? && HexPair(ToByteHex(pair).value) == pair
  {
    var hi, lo := HexValue(pair[0]), HexValue(pair[1]);
    var b := (hi * 16 + lo) as byte;
    assert b as nat / 16 == hi && b as nat % 16 == lo;
  }

  /**
   * stringToByteArray: converts each pair of characters starting at an even
   * position, left to right; an odd trailing character makes Substring fail.
   */
  function StringToByteArray(hex: string): (r: Result<seq<byte>>)
    ensures r.Ok? ==> 2 * |r.value| == |hex|
    decreases |hex|
  {
    if |hex| == 0 then Ok([])
    else if |hex| == 1 then Err(ArgumentOutOfRange)
    else
      var b :- ToByteHex(hex[..2]);
      var rest :- StringToByteArray(hex[2..]);
      Ok([b] + rest)
  }

  /** Reading the hex form back gives the bytes. */
  lemma {:induction false} StringToByteArrayHex(bs: seq<byte>)
    ensures StringToByteArray(HexString(bs)) == Ok(bs)
  {
    if |bs| > 0 {
      var h := HexString(bs);
      assert h[..2] == HexPair(bs[0]);
      assert h[2..] == HexString(bs[1..]);
      ToByteHexPair(bs[0]);
      StringToByteArrayHex(bs[1..]);
      assert [bs[0]] + bs[1..] == bs;
    }
  }

  predicate AllLowerHex(s: string) {
    forall i :: 0 <= i < |s| ==> IsLowerHex(s[i])
  }

  /** A lowercase hex string of even length is the hex form of the bytes it converts to. */
  lemma {:induction false} HexStringOfBytes(s: string)
    requires |s| % 2 == 0 && AllLowerHex(s)
    ensures StringToByteArray(s).Ok? && HexString(StringToByteArray(s).value) == s
    decreases |s|
  {
    if |s| > 0 {
      var b := ToByteHex(s[..2]);
      ToByteHexLower(s[..2]);
      assert AllLowerHex(s[2..]) by {
        forall i | 0 <= i < |s[2..]| ensures IsLowerHex(s[2..][i]) {
          assert s[2..][i] == s[i + 2];
        }
      }
      HexStringOfBytes(s[2..]);
      var rest := StringToByteArray(s[2..]).value;
      assert ([b.value] + rest)[1..] == rest;
      assert s == s[..2] + s[2..];
    }
  }

  /** An object id. `Bytes` is the 20-byte array every constructor fills. */
  datatype SHA1 = SHA1(Bytes: seq<byte>) {

    /** String(): the 40-character lowercase hex form, built two characters per byte. */
    method String() returns (s: string)
      requires |Bytes| >= 20
      ensures s == HexString(Bytes[..20])
      ensures |s| == 40 && AllLowerHex(s)
    {
      s := "";
      var i := 0;
      while i < 20
        invariant 0 <= i <= 20
        invariant s == HexString(Bytes[..i])
      {
        HexStringAppend(Bytes[..i], [Bytes[i]]);
        assert Bytes[..i + 1] == Bytes[..i] + [Bytes[i]];
        HexDigitsTable(Bytes[i] as nat / 16);
        HexDigitsTable(Bytes[i] as nat % 16);
        s := s + [HexDigits[Bytes[i] / 16], HexDigits[Bytes[i] % 16]];
        i := i + 1;
      }
      HexStringLowerHex(Bytes[..20]);
    }

    /** Equal(string): the hex form equals `str`. */
    method EqualString(str: string) returns (b: bool)
      requires |Bytes| >= 20
      ensures b <==> HexString(Bytes[..20]) == str
    {
      var s := String();
      b := s == str;
    }

    /** Equal(byte[]): element-wise comparison. */
    predicate EqualBytes(bytes: seq<byte>)
      ensures EqualBytes(bytes) <==> |Bytes| == |bytes| && forall i :: 0 <= i < |bytes| ==> Bytes[i] == bytes[i]
    {
      Bytes == bytes
    }

    /** Equal(SHA1): element-wise comparison of the two byte arrays; it is symmetric. */
    predicate EqualId(other: SHA1)
      ensures EqualId(other) <==> EqualBytes(other.Bytes)
      ensures EqualId(other) <==> other.EqualBytes(Bytes)
    {
      Bytes == other.Bytes
    }
  }

  lemma {:induction false} HexStringLowerHex(bs: seq<byte>)
    ensures AllLowerHex(HexString(bs))
  {
    forall i | 0 <= i < |HexString(bs)| ensures IsLowerHex(HexString(bs)[i]) {
      HexStringAt(bs, i / 2);
      HexValueDigit(bs[i / 2] as nat / 16);
      HexValueDigit(bs[i / 2] as nat % 16);
      assert i == 2 * (i / 2) || i == 2 * (i / 2) + 1;
    }
  }

  /** What MustID builds: the first 20 bytes, or the indexer's failure when there are fewer. */
  function CopyId(bytes: seq<byte>): (r: Result<SHA1>)
    ensures r.Ok? <==> |bytes| >= 20
    ensures r.Ok? ==> |r.value.Bytes| == 20 && r.value.Bytes == bytes[..20]
  {
    if |bytes| < 20 then Err(IndexOutOfRange) else Ok(SHA1(bytes[..20]))
  }

  /** MustID: copies the first 20 bytes into a new 20-byte array, one at a time. */
  method MustID(bytes: seq<byte>) returns (r: Result<SHA1>)
    ensures r.Ok? <==> |bytes| >= 20
    ensures r.Ok? ==> r.value.Bytes == bytes[..20]
    ensures r.Err? ==> r.error == IndexOutOfRange
  {
    var copy := new byte[20];
    var i := 0;
    while i < 20
      invariant 0 <= i <= 20
      invariant i <= |bytes|
      invariant copy[..i] == bytes[..i]
    {
      if i >= |bytes| {
        return Err(IndexOutOfRange);
      }
      copy[i] := bytes[i];
      i := i + 1;
    }
    r := Ok(SHA1(copy[..]));
  }

  /** NewID: only a 20-byte array makes an id. */
  function NewID(bytes: seq<byte>): (r: Result<SHA1>)
    ensures r.Ok? <==> |bytes| == 20
    ensures r.Ok? ==> r.value.Bytes == bytes
    ensures r.Err? ==> r.error == LengthNotMatch("byte array length must equal 20")
  {
    if |bytes| != 20 then Err(LengthNotMatch("byte array length must equal 20"))
    else CopyId(bytes)
  }

  /** MustIDFromString: converts the hex text without checking its length first. */
  function MustIDFromString(s: string): (r: Result<SHA1>)
    ensures r.Ok? ==> |s| >= 40 && |r.value.Bytes| == 20
  {
    var b :- StringToByteArray(s);
    CopyId(b)
  }

  /**
   * NewIDFromString: trims, requires a length of exactly 40 UTF-16 code
   * units, converts, then requires 20 bytes.
   */
  function NewIDFromString(s: string): (r: Result<SHA1>)
    ensures Utf16Length(Trim(s)) != 40 ==> r == Err(LengthNotMatch("byte array length must equal 40"))
    ensures r.Ok? ==> |r.value.Bytes| == 20
  {
    var t := Trim(s);
    if Utf16Length(t) != 40 then Err(LengthNotMatch("byte array length must equal 40"))
    else
      var b :- StringToByteArray(t);
      NewID(b)
  }

  /** Round trip: the hex form of a 20-byte id reads back as the same bytes. */
  lemma NewIDFromStringHex(bs: seq<byte>)
    requires |bs| == 20
    ensures NewIDFromString(HexString(bs)) == Ok(SHA1(bs))
  {
    var h := HexString(bs);
    HexStringLowerHex(bs);
    assert !IsWhiteSpace(h[0]) && !IsWhiteSpace(h[39]);
    Utf16LengthBmp(h);
    StringToByteArrayHex(bs);
  }

  /** Round trip: a 40-character lowercase hex string is the hex form of the id it converts to. */
  lemma MustIDFromStringHex(s: string)
    requires |s| == 40 && AllLowerHex(s)
    ensures MustIDFromString(s).Ok?
    ensures HexString(MustIDFromString(s).value.Bytes) == s
  {
    HexStringOfBytes(s);
    var b := StringToByteArray(s).value;
    assert b[..20] == b;
  }

  /** An id with a non-zero byte never has the hex form EmptyID. */
  lemma NonZeroIsNotEmpty(bs: seq<byte>, k: nat)
    requires k < |bs| == 20 && bs[k] != 0
    ensures HexString(bs) != EmptyID
  {
    var i := if bs[k] / 16 != 0 then 2 * k else 2 * k + 1;
    assert HexString(bs)[i] != '0' by {
      HexStringAt(bs, k);
      assert bs[k] / 16 != 0 || bs[k] % 16 != 0;
    }
    EmptyIDZero(i);
  }

  /** Every character of EmptyID is '0'. */
  lemma EmptyIDZero(i: nat)
    requires i < |EmptyID|
    ensures EmptyID[i] == '0'
  {
  }

  /** A text with a character other than '+' and the hex digits never converts. */
  lemma {:induction false} StringToByteArrayRejects(s: string, k: nat)
    requires k < |s| && !IsHexDigit(s[k]) && s[k] != '+'
    ensures StringToByteArray(s).Err?
    decreases |s|
  {
    if |s| >= 2 && k >= 2 {
      if ToByteHex(s[..2]).Ok? {
        StringToByteArrayRejects(s[2..], k - 2);
      }
    }
  }

  /** The identifiers of the unit tests: the same text gives equal ids, and that id differs from EmptyID. */
  lemma FixtureIds()
    ensures MustIDFromString("fcf7087e732bfe3c25328248a9bf8c3ccd85bed4").Ok?
    ensures HexString(MustIDFromString("fcf7087e732bfe3c25328248a9bf8c3ccd85bed4").value.Bytes)
         != EmptyID
  {
    var s := "fcf7087e732bfe3c25328248a9bf8c3ccd85bed4";
    assert AllLowerHex(s);
    MustIDFromStringHex(s);
  }

  /** NewID on the six bytes of "000000" fails with a length error. */
  lemma SixBytesRejected(bs: seq<byte>)
    requires |bs| == 6
    ensures NewID(bs).Err? && NewID(bs).error.LengthNotMatch?
  {
  }
}
