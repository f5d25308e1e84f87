/** The fake address converter used by the node's tests: an address is a byte
    string of a fixed length, written as a configurable prefix followed by
    lowercase hexadecimal. A string is a sequence of one-byte characters;
    lower-casing touches only the letters `A` to `Z`. */
module AddressConverter {
  import opened Common

  datatype AddressConverterFake = AddressConverterFake(addressLen: nat, prefix: string)

  /** `CreateAddressFromPublicKeyBytes`: never fails; a key that fits is kept
      whole, a longer one is cut down to its last `addressLen` bytes. */
  function CreateAddressFromPublicKeyBytes(c: AddressConverterFake, pubKey: Bytes): (r: Result<Bytes, Error>)
    ensures r.Ok?
    ensures |r.value| == if |pubKey| <= c.addressLen then |pubKey| else c.addressLen
    ensures r.value == pubKey[|pubKey| - |r.value|..]
  {
    if |pubKey| > c.addressLen then Ok(pubKey[|pubKey| - c.addressLen..]) else Ok(pubKey)
  }

  /** `PrepareAddressBytes`: the bytes are already in address form. */
  function PrepareAddressBytes(c: AddressConverterFake, addressBytes: Bytes): (r: Result<Bytes, Error>)
    ensures r == Ok(addressBytes)
  {
    Ok(addressBytes)
  }

  predicate IsLowerHexDigit(ch: char) {
    '0' <= ch <= '9' || 'a' <= ch <= 'f'
  }

  /** The value of a hexadecimal digit of either case, as Go's hex package
      reads it; nothing for any other character. */
  function FromHexChar(ch: char): (r: Option<nat>)
    ensures r.Some? <==> IsLowerHexDigit(ch) || 'A' <= ch <= 'F'
    ensures r.Some? ==> r.value < 16
  {
    if '0' <= ch <= '9' then Some(ch as int - '0' as int)
    else if 'a' <= ch <= 'f' then Some(ch as int - 'a' as int + 10)
    else if 'A' <= ch <= 'F' then Some(ch as int - 'A' as int + 10)
    else None
  }

  /** The lowercase digit Go's hex encoder writes for a nibble. */
  function HexDigit(n: nat): (ch: char)
    requires n < 16
    ensures IsLowerHexDigit(ch)
    ensures FromHexChar(ch) == Some(n)
  {
    if n < 10 then ('0' as int + n) as char else ('a' as int + n - 10) as char
  }

  /** Go's `hex.EncodeToString`: two lowercase digits per byte, high nibble
      first. */
  function EncodeToString(b: Bytes): (s: string)
    ensures |s| == 2 * |b|
    ensures forall i :: 0 <= i < |s| ==> IsLowerHexDigit(s[i])
  {
    if b == [] then "" else [HexDigit(b[0] / 16), HexDigit(b[0] % 16)] + EncodeToString(b[1..])
  }

  /** Go's `hex.Decode`: digit pairs to bytes, failing on the first character
      that is not a digit, and on an odd length once every character is a
      digit. */
  function DecodeHex(s: string): (r: Result<Bytes, Error>)
    ensures r.Ok? ==> 2 * |r.value| == |s|
    ensures r.Ok? <==> |s| % 2 == 0 && forall i :: 0 <= i < |s| ==> FromHexChar(s[i]).Some?
    ensures r == Err(ErrOddHexLength) ==> |s| % 2 == 1 && forall i :: 0 <= i < |s| ==> FromHexChar(s[i]).Some?
    ensures r.Err? && r.error != ErrOddHexLength ==>
      exists i :: 0 <= i < |s| && r.error == ErrInvalidHexByte(s[i]) && FromHexChar(s[i]).None? &&
        forall j :: 0 <= j < i ==> FromHexChar(s[j]).Some?
    decreases |s|
  {
    if |s| == 0 then Ok([])
    else if |s| == 1 then
      if FromHexChar(s[0]).None? then Err(ErrInvalidHexByte(s[0])) else Err(ErrOddHexLength)
    else
      var hi := FromHexChar(s[0]);
      var lo := FromHexChar(s[1]);
      if hi.None? then Err(ErrInvalidHexByte(s[0]))
      else if lo.None? then Err(ErrInvalidHexByte(s[1]))
      else
        var rest := DecodeHex(s[2..]);
        if rest.Err? then
          assert forall i :: 2 <= i < |s| ==> s[i] == s[2..][i - 2];
          rest
        else Ok([hi.value * 16 + lo.value] + rest.value)
  }

  function ToLowerChar(ch: char): char {
    if 'A' <= ch <= 'Z' then (ch as int - 'A' as int + 'a' as int) as char else ch
  }

  /** Go's `strings.ToLower` on one-byte characters. */
  function ToLower(s: string): string {
    seq(|s|, i requires 0 <= i < |s| => ToLowerChar(s[i]))
  }

  predicate HasPrefix(s: string, p: string) {
    |p| <= |s| && s[..|p|] == p
  }

  /** The digits `CreateAddressFromHex` decodes: the lower-cased input with the
      lower-cased prefix removed when it starts with it. */
  function TrimmedHex(c: AddressConverterFake, hexAddress: string): string {
    var lower := ToLower(hexAddress);
    if HasPrefix(lower, ToLower(c.prefix)) then lower[|c.prefix|..] else lower
  }

  /** `CreateAddressFromHex`: exactly `2 * addressLen` hex digits after the
      optional prefix, in either case, decode to an address of `addressLen`
      bytes; any other length is `ErrWrongSize`, a non-digit is reported. */
  function CreateAddressFromHex(c: AddressConverterFake, hexAddress: string): (r: Result<Bytes, Error>)
    ensures r.Ok? ==> |r.value| == c.addressLen
    ensures r == Err(ErrWrongSize) <==> |TrimmedHex(c, hexAddress)| != 2 * c.addressLen
    ensures r.Ok? <==> (|TrimmedHex(c, hexAddress)| == 2 * c.addressLen &&
      forall i :: 0 <= i < |TrimmedHex(c, hexAddress)| ==> FromHexChar(TrimmedHex(c, hexAddress)[i]).Some?)
    ensures r.Err? && r.error != ErrWrongSize ==>
      r.error.ErrInvalidHexByte? && r.error.c in TrimmedHex(c, hexAddress) && FromHexChar(r.error.c).None?
  {
    var digits := TrimmedHex(c, hexAddress);
    if |digits| != 2 * c.addressLen then Err(ErrWrongSize) else DecodeHex(digits)
  }

  /** `ConvertToHex`: never fails; the prefix followed by two lowercase digits
      per byte. */
  function ConvertToHex(c: AddressConverterFake, address: Bytes): (r: Result<string, Error>)
    ensures r.Ok?
    ensures |r.value| == |c.prefix| + 2 * |address|
    ensures r.value[..|c.prefix|] == c.prefix
    ensures forall i :: |c.prefix| <= i < |r.value| ==> IsLowerHexDigit(r.value[i])
  {
    Ok(c.prefix + EncodeToString(address))
  }

  /** Decoding what the encoder wrote gives back the bytes. */
  lemma {:induction false} DecodeEncode(b: Bytes)
    ensures DecodeHex(EncodeToString(b)) == Ok(b)
  {
    if b != [] {
      var s := EncodeToString(b);
      assert s[2..] == EncodeToString(b[1..]);
      DecodeEncode(b[1..]);
      assert (b[0] / 16) * 16 + b[0] % 16 == b[0];
      assert b == [b[0]] + b[1..];
    }
  }

  lemma ToLowerAppend(a: string, b: string)
    ensures ToLower(a + b) == ToLower(a) + ToLower(b)
  {
  }

  lemma ToLowerOfLowerHex(s: string)
    requires forall i :: 0 <= i < |s| ==> IsLowerHexDigit(s[i])
    ensures ToLower(s) == s
  {
  }

  /** A digit of either case, read and written again, comes out lower-cased. */
  lemma HexDigitOfChar(ch: char)
    requires FromHexChar(ch).Some?
    ensures HexDigit(FromHexChar(ch).value) == ToLowerChar(ch)
  {
  }

  /** The other round trip: whatever decodes, encoded again, is the input
      in lower case. */
  lemma {:induction false} EncodeDecode(s: string)
    requires DecodeHex(s).Ok?
    ensures EncodeToString(DecodeHex(s).value) == ToLower(s)
    decreases |s|
  {
    if |s| >= 2 {
      var hi := FromHexChar(s[0]).value;
      var lo := FromHexChar(s[1]).value;
      var b := DecodeHex(s).value;
      EncodeDecode(s[2..]);
      assert b[0] == hi * 16 + lo && b[1..] == DecodeHex(s[2..]).value;
      assert b[0] / 16 == hi && b[0] % 16 == lo;
      HexDigitOfChar(s[0]);
      HexDigitOfChar(s[1]);
      assert ToLower(s) == [ToLowerChar(s[0]), ToLowerChar(s[1])] + ToLower(s[2..]);
    }
  }

  /** Round trip: an address of the configured length, converted to hex and
      read back, is the same address. */
  lemma ConvertRoundTrip(c: AddressConverterFake, address: Bytes)
    requires |address| == c.addressLen
    ensures CreateAddressFromHex(c, ConvertToHex(c, address).value) == Ok(address)
  {
    var encoded := EncodeToString(address);
    ToLowerAppend(c.prefix, encoded);
    ToLowerOfLowerHex(encoded);
    var lower := ToLower(c.prefix + encoded);
    assert lower == ToLower(c.prefix) + encoded;
    assert lower[..|c.prefix|] == ToLower(c.prefix);
    assert lower[|c.prefix|..] == encoded;
    DecodeEncode(address);
  }

  /** Reading hex is case-insensitive: the input and its lower-cased form
      give the same result. */
  lemma CreateAddressFromHexIgnoresCase(c: AddressConverterFake, hexAddress: string)
    ensures CreateAddressFromHex(c, ToLower(hexAddress)) == CreateAddressFromHex(c, hexAddress)
  {
    assert ToLower(ToLower(hexAddress)) == ToLower(hexAddress);
  }

  /** The prefix is optional: writing it in front of an input that does not
      already start with it changes nothing. */
  lemma CreateAddressFromHexPrefixOptional(c: AddressConverterFake, hexAddress: string)
    requires !HasPrefix(ToLower(hexAddress), ToLower(c.prefix))
    ensures CreateAddressFromHex(c, c.prefix + hexAddress) == CreateAddressFromHex(c, hexAddress)
  {
    ToLowerAppend(c.prefix, hexAddress);
    var lower := ToLower(c.prefix + hexAddress);
    assert lower[..|c.prefix|] == ToLower(c.prefix);
    assert lower[|c.prefix|..] == ToLower(hexAddress);
  }
}
