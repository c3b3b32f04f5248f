/**
 base64.urlsafe_b64encode and urlsafe_b64decode as Python has them, with the padding that
 src/sre_dashboard/routes/audits.py strips and restores.  The decoder is Python's lenient one: it
 takes both alphabets of RFC 4648 (sections 4 and 5), skips every other character and ends at
 complete padding.
 */
module Base64Url {
  import opened Wrappers

  type Byte = n: int | 0 <= n < 256
  type Sextet = n: int | 0 <= n < 64

  function Letter(v: Sextet): char {
    if v < 26 then ('A' as int + v) as char
    else if v < 52 then ('a' as int + v - 26) as char
    else if v < 62 then ('0' as int + v - 52) as char
    else if v == 62 then '-' else '_'
  }

  function ValueOf(c: char): Option<Sextet> {
    if 'A' <= c <= 'Z' then Some(c as int - 'A' as int)
    else if 'a' <= c <= 'z' then Some(c as int - 'a' as int + 26)
    else if '0' <= c <= '9' then Some(c as int - '0' as int + 52)
    else if c == '-' || c == '+' then Some(62)
    else if c == '_' || c == '/' then Some(63)
    else None
  }

  lemma LetterHasValue(v: Sextet)
    ensures ValueOf(Letter(v)) == Some(v) && Letter(v) != '='
  {
  }

  // ---- Encoding ----

  function FirstSextet(a: Byte): Sextet { a / 4 }

  function SecondSextet(a: Byte, b: Byte): Sextet { a % 4 * 16 + b / 16 }

  function ThirdSextet(b: Byte, c: Byte): Sextet { b % 16 * 4 + c / 64 }

  function FourthSextet(c: Byte): Sextet { c % 64 }

  /** urlsafe_b64encode. */
  function Encode(data: seq<Byte>): string {
    if |data| == 0 then ""
    else
      var a := data[0];
      if |data| == 1 then [Letter(FirstSextet(a)), Letter(SecondSextet(a, 0)), '=', '=']
      else
        var b := data[1];
        if |data| == 2 then
          [Letter(FirstSextet(a)), Letter(SecondSextet(a, b)), Letter(ThirdSextet(b, 0)), '=']
        else
          var c := data[2];
          [Letter(FirstSextet(a)), Letter(SecondSextet(a, b)), Letter(ThirdSextet(b, c)), Letter(FourthSextet(c))]
          + Encode(data[3..])
  }

  /** rstrip("="). */
  function StripPadding(s: string): string {
    if |s| > 0 && s[|s| - 1] == '=' then StripPadding(s[..|s| - 1]) else s
  }

  /** "=" * n. */
  function Padding(n: nat): string { if n == 0 then "" else "=" + Padding(n - 1) }

  /** cursor + "=" * (-len(cursor) % 4). */
  function Padded(s: string): string { s + Padding((-|s|) % 4) }

  // ---- Decoding ----

  /** Characters of the current quad so far, the bits not yet written, and the padding just seen. */
  datatype Reader = Reader(quad: nat, left: Sextet, pads: nat)

  const FRESH := Reader(0, 0, 0)

  function Emit(bytes: seq<Byte>, rest: Option<seq<Byte>>): Option<seq<Byte>> {
    if rest.None? then None else Some(bytes + rest.value)
  }

  /** The byte that a character of the given value completes, if any. */
  function Written(r: Reader, v: Sextet): seq<Byte> {
    if r.quad == 0 then []
    else if r.quad == 1 then [(r.left * 4 + v / 16) % 256]
    else if r.quad == 2 then [(r.left * 16 + v / 4) % 256]
    else [(r.left * 64 + v) % 256]
  }

  function Next(r: Reader, v: Sextet): Reader {
    if r.quad == 0 then Reader(1, v, 0)
    else if r.quad == 1 then Reader(2, v % 16, 0)
    else if r.quad == 2 then Reader(3, v % 4, 0)
    else FRESH
  }

  /** The loop of binascii.a2b_base64, not strict, from one of its states on. */
  function Read(s: string, r: Reader): Option<seq<Byte>> {
    if |s| == 0 then if r.quad == 0 then Some([]) else None
    else if s[0] == '=' then
      if r.quad >= 2 && r.quad + r.pads + 1 >= 4 then Some([])
      else Read(s[1..], if r.quad >= 2 then r.(pads := r.pads + 1) else r)
    else
      match ValueOf(s[0])
      case None => Read(s[1..], r)
      case Some(v) => Emit(Written(r, v), Read(s[1..], Next(r, v)))
  }

  /** urlsafe_b64decode, None for the binascii.Error. */
  function Decode(s: string): Option<seq<Byte>> { Read(s, FRESH) }

  // ---- The round trip with padding ----

  lemma ReadLetter(v: Sextet, rest: string, r: Reader)
    ensures Read([Letter(v)] + rest, r) == Emit(Written(r, v), Read(rest, Next(r, v)))
  {
    hide Letter, ValueOf, Written, Next, Emit;
    LetterHasValue(v);
    var s := [Letter(v)] + rest;
    assert s[0] == Letter(v) && s[1..] == rest;
  }

  lemma EmitNothing(rest: Option<seq<Byte>>)
    ensures Emit([], rest) == rest
  {
    if rest.Some? {
      assert [] + rest.value == rest.value;
    }
  }

  lemma EmitTwice(a: seq<Byte>, b: seq<Byte>, rest: Option<seq<Byte>>)
    ensures Emit(a, Emit(b, rest)) == Emit(a + b, rest)
  {
    if rest.Some? {
      assert a + (b + rest.value) == (a + b) + rest.value;
    }
  }

  lemma FirstByte(a: Byte, b: Byte)
    ensures (FirstSextet(a) * 4 + SecondSextet(a, b) / 16) % 256 == a
    ensures SecondSextet(a, b) % 16 == b / 16
  {
  }

  lemma SecondByte(b: Byte, c: Byte)
    ensures (b / 16 * 16 + ThirdSextet(b, c) / 4) % 256 == b
    ensures ThirdSextet(b, c) % 4 == c / 64
  {
  }

  lemma ThirdByte(c: Byte)
    ensures (c / 64 * 64 + FourthSextet(c)) % 256 == c
  {
  }

  lemma ReadTwo(a: Byte, b: Byte, rest: string)
    ensures Read([Letter(FirstSextet(a))] + ([Letter(SecondSextet(a, b))] + rest), FRESH)
         == Emit([a], Read(rest, Reader(2, b / 16, 0)))
  {
    hide Read, Letter, FirstSextet, SecondSextet;
    ReadLetter(FirstSextet(a), [Letter(SecondSextet(a, b))] + rest, FRESH);
    ReadLetter(SecondSextet(a, b), rest, Reader(1, FirstSextet(a), 0));
    EmitNothing(Read([Letter(SecondSextet(a, b))] + rest, Reader(1, FirstSextet(a), 0)));
    FirstByte(a, b);
  }

  lemma ReadThird(b: Byte, c: Byte, rest: string)
    ensures Read([Letter(ThirdSextet(b, c))] + rest, Reader(2, b / 16, 0))
         == Emit([b], Read(rest, Reader(3, c / 64, 0)))
  {
    hide Read, Letter, ThirdSextet;
    ReadLetter(ThirdSextet(b, c), rest, Reader(2, b / 16, 0));
    SecondByte(b, c);
  }

  lemma ReadFourth(c: Byte, rest: string)
    ensures Read([Letter(FourthSextet(c))] + rest, Reader(3, c / 64, 0)) == Emit([c], Read(rest, FRESH))
  {
    hide Read, Letter, FourthSextet;
    ReadLetter(FourthSextet(c), rest, Reader(3, c / 64, 0));
    ThirdByte(c);
  }

  lemma ReadPadding(left: Sextet)
    ensures Read("==", Reader(2, left, 0)) == Some([])
    ensures Read("=", Reader(3, left, 0)) == Some([])
  {
    assert "=="[1..] == "=";
  }

  lemma ReadOne(a: Byte)
    ensures Read([Letter(FirstSextet(a)), Letter(SecondSextet(a, 0)), '=', '='], FRESH) == Some([a])
  {
    hide Read, Letter, FirstSextet, SecondSextet;
    ReadTwo(a, 0, "==");
    ReadPadding(0);
    assert [Letter(FirstSextet(a)), Letter(SecondSextet(a, 0)), '=', '=']
        == [Letter(FirstSextet(a))] + ([Letter(SecondSextet(a, 0))] + "==");
    assert [a] + [] == [a];
  }

  lemma ReadPair(a: Byte, b: Byte)
    ensures Read([Letter(FirstSextet(a)), Letter(SecondSextet(a, b)), Letter(ThirdSextet(b, 0)), '='], FRESH)
         == Some([a, b])
  {
    hide Read, Letter, FirstSextet, SecondSextet, ThirdSextet;
    ReadTwo(a, b, [Letter(ThirdSextet(b, 0))] + "=");
    ReadThird(b, 0, "=");
    ReadPadding(0);
    assert [Letter(FirstSextet(a)), Letter(SecondSextet(a, b)), Letter(ThirdSextet(b, 0)), '=']
        == [Letter(FirstSextet(a))] + ([Letter(SecondSextet(a, b))] + ([Letter(ThirdSextet(b, 0))] + "="));
    assert [a] + ([b] + []) == [a, b];
  }

  lemma ReadTriple(a: Byte, b: Byte, c: Byte, rest: string)
    ensures Read([Letter(FirstSextet(a)), Letter(SecondSextet(a, b)), Letter(ThirdSextet(b, c)),
                  Letter(FourthSextet(c))] + rest, FRESH)
         == Emit([a, b, c], Read(rest, FRESH))
  {
    hide Read, Letter, FirstSextet, SecondSextet, ThirdSextet, FourthSextet;
    var tail := [Letter(FourthSextet(c))] + rest;
    ReadTwo(a, b, [Letter(ThirdSextet(b, c))] + tail);
    ReadThird(b, c, tail);
    ReadFourth(c, rest);
    assert [Letter(FirstSextet(a)), Letter(SecondSextet(a, b)), Letter(ThirdSextet(b, c)), Letter(FourthSextet(c))] + rest
        == [Letter(FirstSextet(a))] + ([Letter(SecondSextet(a, b))] + ([Letter(ThirdSextet(b, c))] + tail));
    EmitTwice([b], [c], Read(rest, FRESH));
    EmitTwice([a], [b] + [c], Read(rest, FRESH));
    assert [a] + ([b] + [c]) == [a, b, c];
    hide Emit;
  }

  /** Decoding an encoding gives the bytes back. */
  lemma {:induction false} DecodeEncode(data: seq<Byte>)
    ensures Decode(Encode(data)) == Some(data)
  {
    hide Read, Letter, FirstSextet, SecondSextet, ThirdSextet, FourthSextet;
    if |data| == 0 {
      NothingIsRead();
    } else if |data| == 1 {
      ReadOne(data[0]);
      assert [data[0]] == data;
    } else if |data| == 2 {
      ReadPair(data[0], data[1]);
      assert [data[0], data[1]] == data;
    } else {
      DecodeEncode(data[3..]);
      ReadTriple(data[0], data[1], data[2], Encode(data[3..]));
      assert [data[0], data[1], data[2]] + data[3..] == data;
    }
  }

  lemma NothingIsRead()
    ensures Read("", FRESH) == Some([])
  {
  }

  // ---- Stripped and restored padding ----

  /** The encoding without its padding. */
  function Bare(data: seq<Byte>): string {
    if |data| == 0 then ""
    else
      var a := data[0];
      if |data| == 1 then [Letter(FirstSextet(a)), Letter(SecondSextet(a, 0))]
      else
        var b := data[1];
        if |data| == 2 then [Letter(FirstSextet(a)), Letter(SecondSextet(a, b)), Letter(ThirdSextet(b, 0))]
        else
          var c := data[2];
          [Letter(FirstSextet(a)), Letter(SecondSextet(a, b)), Letter(ThirdSextet(b, c)), Letter(FourthSextet(c))]
          + Bare(data[3..])
  }

  predicate IsLetter(c: char) { 'A' <= c <= 'Z' || 'a' <= c <= 'z' || '0' <= c <= '9' || c == '-' || c == '_' }

  lemma LetterIsLetter(v: Sextet)
    ensures IsLetter(Letter(v))
  {
  }

  lemma {:induction false} BareIsLetters(data: seq<Byte>)
    ensures forall c :: c in Bare(data) ==> IsLetter(c)
  {
    hide IsLetter, Letter, FirstSextet, SecondSextet, ThirdSextet, FourthSextet;
    forall v: Sextet ensures IsLetter(Letter(v)) { LetterIsLetter(v); }
    if |data| > 2 {
      BareIsLetters(data[3..]);
    }
  }

  lemma PaddedAfterQuad(quad: string, rest: string)
    requires |quad| == 4
    ensures Padded(quad + rest) == quad + Padded(rest)
    ensures |quad + rest| % 4 == |rest| % 4
  {
    SamePadding(|rest|);
    hide Padding;
    assert quad + rest + Padding((-|rest|) % 4) == quad + (rest + Padding((-|rest|) % 4));
  }

  lemma SamePadding(n: int)
    ensures (-(4 + n)) % 4 == (-n) % 4
  {
  }

  /** The restored padding is the padding that was stripped. */
  lemma {:induction false} EncodeIsPaddedBare(data: seq<Byte>)
    ensures Encode(data) == Padded(Bare(data))
    ensures |Bare(data)| % 4 != 1
  {
    hide Letter, FirstSextet, SecondSextet, ThirdSextet, FourthSextet;
    if |data| == 0 {
    } else if |data| == 1 {
      assert Padding(2) == "==";
    } else if |data| == 2 {
      assert Padding(1) == "=";
    } else {
      EncodeIsPaddedBare(data[3..]);
      PaddedAfterQuad(Bare(data)[..4], Bare(data[3..]));
      assert Bare(data) == Bare(data)[..4] + Bare(data[3..]);
      hide Padded;
    }
  }

  lemma {:induction false} PaddingIsStripped(s: string, n: nat)
    requires '=' !in s
    ensures StripPadding(s + Padding(n)) == s
  {
    if n == 0 {
      assert s + Padding(0) == s;
    } else {
      PaddingGrows(n - 1);
      var t := s + Padding(n - 1);
      assert s + Padding(n) == t + "=";
      assert (t + "=")[..|t|] == t;
      PaddingIsStripped(s, n - 1);
    }
  }

  lemma {:induction false} PaddingGrows(n: nat)
    ensures Padding(n + 1) == Padding(n) + "="
  {
    if n > 0 {
      PaddingGrows(n - 1);
    }
  }

  /** What is sent: no padding, and only characters of the URL-safe alphabet. */
  lemma StrippedEncoding(data: seq<Byte>)
    ensures StripPadding(Encode(data)) == Bare(data)
    ensures forall c :: c in StripPadding(Encode(data)) ==> IsLetter(c)
  {
    BareIsLetters(data);
    assert '=' !in Bare(data);
    EncodeIsPaddedBare(data);
    PaddingIsStripped(Bare(data), (-|Bare(data)|) % 4);
  }

  /** Stripping the padding and restoring it from the length loses nothing, for all bytes. */
  lemma DecodeStripped(data: seq<Byte>)
    ensures Decode(Padded(StripPadding(Encode(data)))) == Some(data)
  {
    StrippedEncoding(data);
    EncodeIsPaddedBare(data);
    DecodeEncode(data);
  }

  // ---- What else decodes ----

  lemma ReadSign(rest: string, r: Reader)
    ensures Read("=" + rest, r)
         == (if r.quad >= 2 && r.quad + r.pads + 1 >= 4 then Some([])
             else Read(rest, if r.quad >= 2 then r.(pads := r.pads + 1) else r))
  {
    assert ("=" + rest)[1..] == rest;
  }

  lemma ReadPaddingOnly(n: nat, r: Reader)
    requires n < 4 && r.quad < 4 && (r.quad + n) % 4 == 0 && r.pads == 0
    ensures Read(Padding(n), r).Some? <==> n != 3
  {
    assert Padding(0) == "" && Padding(1) == "=" + Padding(0);
    assert Padding(2) == "=" + Padding(1) && Padding(3) == "=" + Padding(2);
    hide Padding;
    if n == 1 {
      ReadSign(Padding(0), r);
    } else if n == 2 {
      ReadSign(Padding(1), r);
      ReadSign(Padding(0), r.(pads := 1));
    } else if n == 3 {
      ReadSign(Padding(2), r);
      ReadSign(Padding(1), r);
      ReadSign(Padding(0), r);
    }
  }

  function LetterValue(c: char): (v: Sextet)
    requires IsLetter(c)
    ensures ValueOf(c) == Some(v) && c != '='
  {
    ValueOf(c).value
  }

  lemma EmitKeepsFailure(bytes: seq<Byte>, rest: Option<seq<Byte>>)
    ensures Emit(bytes, rest).Some? <==> rest.Some?
  {
  }

  lemma NextQuad(r: Reader, v: Sextet)
    requires r.quad < 4
    ensures Next(r, v).quad == (r.quad + 1) % 4 && Next(r, v).pads == 0
  {
  }

  lemma QuadStep(q: nat, m: nat, n: nat)
    requires q < 4 && m > 0 && (q + m + n) % 4 == 0
    ensures ((q + 1) % 4 + (m - 1) + n) % 4 == 0
  {
  }

  lemma ReadKnownLetter(c: char, rest: string, r: Reader)
    requires IsLetter(c)
    ensures var v := LetterValue(c); Read([c] + rest, r) == Emit(Written(r, v), Read(rest, Next(r, v)))
  {
    var v := LetterValue(c);
    hide IsLetter, LetterValue, ValueOf, Written, Next, Emit;
    assert ([c] + rest)[1..] == rest;
  }

  lemma {:induction false} ReadLetters(s: string, n: nat, r: Reader)
    requires forall c :: c in s ==> IsLetter(c)
    requires n < 4 && r.quad < 4 && (r.quad + |s| + n) % 4 == 0 && r.pads == 0
    ensures Read(s + Padding(n), r).Some? <==> n != 3
  {
    hide Padding, Read, Written, Next, Emit, LetterValue, IsLetter;
    if |s| == 0 {
      assert s + Padding(n) == Padding(n);
      ReadPaddingOnly(n, r);
    } else {
      var c, rest := s[0], s[1..] + Padding(n);
      assert c in s;
      assert s + Padding(n) == [c] + rest;
      var v := LetterValue(c);
      ReadKnownLetter(c, rest, r);
      EmitKeepsFailure(Written(r, v), Read(rest, Next(r, v)));
      NextQuad(r, v);
      QuadStep(r.quad, |s|, n);
      ReadLetters(s[1..], n, Next(r, v));
    }
  }

  /** A cursor of URL-safe letters decodes exactly when its length is not one more than a multiple of four. */
  lemma LettersDecodeExactlyWhen(s: string)
    requires forall c :: c in s ==> IsLetter(c)
    ensures Decode(Padded(s)).Some? <==> |s| % 4 != 1
  {
    ReadLetters(s, (-|s|) % 4, FRESH);
  }

  function Skipped(s: string): string {
    if |s| == 0 then ""
    else if s[0] != '=' && ValueOf(s[0]).None? then Skipped(s[1..])
    else [s[0]] + Skipped(s[1..])
  }

  /** Characters outside both alphabets are as if they were not there, at any place. */
  lemma {:induction false} StrayCharactersAreIgnored(s: string, r: Reader)
    ensures Read(s, r) == Read(Skipped(s), r)
  {
    if |s| > 0 {
      var rest := s[1..];
      if s[0] != '=' && ValueOf(s[0]).None? {
        StrayCharactersAreIgnored(rest, r);
      } else {
        assert Skipped(s)[1..] == Skipped(rest);
        forall q ensures Read(rest, q) == Read(Skipped(rest), q) { StrayCharactersAreIgnored(rest, q); }
      }
    }
  }
}
