/** Store-native record identities: the 12-byte object identifier, its
    24-hex-digit text form, and the validation the repository applies to an
    identity string before it calls the store. */
module ObjectIds {
  import opened Errors

  newtype Byte = x: int | 0 <= x < 256

  /** Number of bytes in an object identifier. */
  const IdBytes := 12

  datatype ObjectId = ObjectId(bytes: seq<Byte>)

  /** Message of the ArgumentException raised for a malformed identity. */
  const IdDoesNotParse := "Object Id does not parse"

  predicate IsHexDigit(c: char) {
    ('0' <= c <= '9') || ('a' <= c <= 'f') || ('A' <= c <= 'F')
  }

  function HexValue(c: char): (v: nat)
    requires IsHexDigit(c)
    ensures v < 16
  {
    if '0' <= c <= '9' then c as nat - '0' as nat
    else if 'a' <= c <= 'f' then c as nat - 'a' as nat + 10
    else c as nat - 'A' as nat + 10
  }

  /** The lower-case digit the identifier's text form uses for `n`. */
  function HexDigit(n: nat): (c: char)
    requires n < 16
    ensures IsHexDigit(c) && HexValue(c) == n
  {
    if n < 10 then ('0' as nat + n) as char else ('a' as nat + n - 10) as char
  }

  predicate AllHex(s: string) {
    forall i | 0 <= i < |s| :: IsHexDigit(s[i])
  }

  /** Decodes pairs of hex digits, high nibble first. */
  function DecodeHex(s: string): (b: seq<Byte>)
    requires |s| % 2 == 0 && AllHex(s)
    ensures |b| == |s| / 2
  {
    if s == [] then []
    else [(HexValue(s[0]) * 16 + HexValue(s[1])) as Byte] + DecodeHex(s[2..])
  }

  /** Encodes each byte as two lower-case hex digits, high nibble first. */
  function EncodeHex(b: seq<Byte>): (s: string)
    ensures |s| == 2 * |b| && AllHex(s)
  {
    if b == [] then []
    else [HexDigit(b[0] as nat / 16), HexDigit(b[0] as nat % 16)] + EncodeHex(b[1..])
  }

  lemma {:induction false} DecodeEncodeHex(b: seq<Byte>)
    ensures DecodeHex(EncodeHex(b)) == b
  {
    if b != [] {
      var s := EncodeHex(b);
      assert s[2..] == EncodeHex(b[1..]);
      DecodeEncodeHex(b[1..]);
    }
  }

  /** The driver's `ObjectId.TryParse`: exactly 24 hex digits, either case. */
  function TryParse(s: string): (r: Option<ObjectId>)
    ensures r.Some? <==> |s| == 2 * IdBytes && AllHex(s)
    ensures r.Some? ==> |r.value.bytes| == IdBytes
  {
    if |s| == 2 * IdBytes && AllHex(s) then Some(ObjectId(DecodeHex(s))) else None
  }

  /** The driver's `ObjectId.ToString`: 24 lower-case hex digits. */
  function ToText(id: ObjectId): (s: string)
    ensures |s| == 2 * |id.bytes| && AllHex(s)
  {
    EncodeHex(id.bytes)
  }

  /** Every identifier's text form parses back to the same identifier. */
  lemma TryParseToText(id: ObjectId)
    requires |id.bytes| == IdBytes
    ensures TryParse(ToText(id)) == Some(id)
  {
    DecodeEncodeHex(id.bytes);
  }

  /** The repository's `ValidateObjectId`: the parsed identity, or an
      ArgumentException when the string does not parse. */
  function ValidateObjectId(objectId: string): (r: Result<ObjectId>)
    ensures r.Success? <==> |objectId| == 2 * IdBytes && AllHex(objectId)
    ensures r.Failure? ==> r.error == Argument(IdDoesNotParse)
    ensures r.Success? ==> TryParse(objectId) == Some(r.value) && ToText(r.value) == Lowered(objectId)
  {
    match TryParse(objectId)
    case None => Failure(Argument(IdDoesNotParse))
    case Some(id) => ValidateParsedText(objectId); Success(id)
  }

  function LowerHex(c: char): (d: char)
    requires IsHexDigit(c)
    ensures IsHexDigit(d) && HexValue(d) == HexValue(c) && !('A' <= d <= 'F')
  {
    if 'A' <= c <= 'F' then (c as nat - 'A' as nat + 'a' as nat) as char else c
  }

  /** The hex string with its upper-case digits made lower case. */
  function Lowered(s: string): (t: string)
    requires AllHex(s)
    ensures |t| == |s|
  {
    if s == [] then [] else [LowerHex(s[0])] + Lowered(s[1..])
  }

  lemma {:induction false} ValidateParsedText(s: string)
    requires |s| % 2 == 0 && AllHex(s)
    ensures EncodeHex(DecodeHex(s)) == Lowered(s)
  {
    if s != [] {
      var hi, lo := HexValue(s[0]), HexValue(s[1]);
      var v := hi * 16 + lo;
      assert v / 16 == hi && v % 16 == lo;
      assert HexDigit(hi) == LowerHex(s[0]);
      assert HexDigit(lo) == LowerHex(s[1]);
      ValidateParsedText(s[2..]);
      assert Lowered(s) == [LowerHex(s[0]), LowerHex(s[1])] + Lowered(s[2..]) by {
        assert Lowered(s) == [LowerHex(s[0])] + Lowered(s[1..]);
        assert s[1..][1..] == s[2..];
      }
    }
  }
}
