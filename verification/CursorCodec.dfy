/** The pagination cursor of src/sre_dashboard/routes/audits.py: JSON, UTF-8 and base64url without padding. */
module CursorCodec {
  import opened Wrappers
  import opened Base64Url
  import opened JsonText

  /** The exclusive start key of a query; an empty dict is no cursor. */
  type Cursor = Fields

  /** str.encode() of an ASCII text; every other character of a text becomes bytes above 127. */
  function Bytes(s: string): seq<Byte>
    requires IsAscii(s)
  {
    if |s| == 0 then []
    else
      assert s[0] in s && forall c :: c in s[1..] ==> c in s;
      var b: Byte := s[0] as int;
      [b] + Bytes(s[1..])
  }

  /** bytes.decode() of ASCII bytes. */
  function Text(b: seq<Byte>): Option<string> {
    if |b| == 0 then Some("")
    else if b[0] >= 128 then None
    else
      match Text(b[1..])
      case None => None
      case Some(rest) => Some([b[0] as char] + rest)
  }

  lemma {:induction false} TextOfBytes(s: string)
    requires IsAscii(s)
    ensures Text(Bytes(s)) == Some(s)
  {
    if |s| > 0 {
      assert s[0] in s && forall c :: c in s[1..] ==> c in s;
      TextOfBytes(s[1..]);
      assert Bytes(s)[1..] == Bytes(s[1..]);
      assert s == [s[0]] + s[1..];
    }
  }

  /** _encode_cursor; None is no cursor. */
  function EncodeCursor(key: Option<Cursor>): Option<string> {
    if key.None? || key.value == [] then None
    else
      DumpIsAscii(key.value);
      Some(StripPadding(Encode(Bytes(Dump(key.value)))))
  }

  datatype BadCursor = BadCursor

  /** _decode_cursor; BadCursor is the answer 400. */
  function DecodeCursor(cursor: Option<string>): Result<Option<Cursor>, BadCursor> {
    if cursor.None? || cursor.value == "" then Ok(None)
    else
      match Decode(Padded(cursor.value))
      case None => Err(BadCursor)
      case Some(bytes) =>
        match Text(bytes)
        case None => Err(BadCursor)
        case Some(text) =>
          match Load(text)
          case None => Err(BadCursor)
          case Some(fields) => Ok(Some(fields))
  }

  /** The key that a decoded cursor hands to the query: an empty dict is falsy. */
  function StartKey(decoded: Option<Cursor>): Option<Cursor> {
    if decoded == Some([]) then None else decoded
  }

  lemma EncodedIsNotEmpty(f: Fields)
    requires IsAscii(Dump(f))
    ensures StripPadding(Encode(Bytes(Dump(f)))) != ""
  {
    StrippedEncoding(Bytes(Dump(f)));
    assert |Bytes(Dump(f))| > 0;
  }

  /** Decoding what was encoded gives the key back, for every key. */
  lemma DecodeEncodeCursor(key: Option<Cursor>)
    ensures DecodeCursor(EncodeCursor(key)) == Ok(StartKey(key))
  {
    hide Dump, Bytes, Encode, Decode, Padded, StripPadding, Load, Text, IsAscii;
    if key.Some? && key.value != [] {
      var f := key.value;
      DumpIsAscii(f);
      EncodedIsNotEmpty(f);
      DecodeStripped(Bytes(Dump(f)));
      TextOfBytes(Dump(f));
      LoadDump(f);
    }
  }

  /** Different keys have different cursors, and a cursor travels in a URL as it is. */
  lemma CursorNamesKey(a: Cursor, b: Cursor)
    requires a != [] && b != []
    ensures EncodeCursor(Some(a)) == EncodeCursor(Some(b)) <==> a == b
    ensures forall c :: c in EncodeCursor(Some(a)).value ==> IsLetter(c)
  {
    hide DecodeCursor, StripPadding, Encode, Bytes, Dump, IsLetter;
    DecodeEncodeCursor(Some(a));
    DecodeEncodeCursor(Some(b));
    DumpIsAscii(a);
    StrippedEncoding(Bytes(Dump(a)));
  }
}
