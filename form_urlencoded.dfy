/** The application/x-www-form-urlencoded format of the WHATWG URL Standard, as used by
    `URLSearchParams.prototype.toString` in the SDK's query builders: the serializer of
    section 5.2 (UTF-8 bytes, the form percent-encode set, space as '+', '&'-separated
    name=value entries) and, as its partner, the parser of section 5.1 with a strict UTF-8
    decoder. The round-trip lemma says that parsing a serialized list gives the list back. */
module FormUrlEncoded {
  import opened Js

  type Byte = b: int | 0 <= b < 256

  // ---------------------------------------------------------------------------
  // UTF-8 (chars are Unicode scalar values)

  function Utf8Char(c: char): (r: seq<Byte>)
    ensures 1 <= |r| <= 4
  {
    var v := c as int;
    if v < 0x80 then [v]
    else if v < 0x800 then [0xC0 + v / 64, 0x80 + v % 64]
    else if v < 0x10000 then [0xE0 + v / 4096, 0x80 + (v / 64) % 64, 0x80 + v % 64]
    else [0xF0 + v / 262144, 0x80 + (v / 4096) % 64, 0x80 + (v / 64) % 64, 0x80 + v % 64]
  }

  function Utf8Encode(s: string): seq<Byte>
  {
    if |s| == 0 then [] else Utf8Char(s[0]) + Utf8Encode(s[1..])
  }

  predicate IsContinuation(b: Byte) { 0x80 <= b < 0xC0 }

  /** Reads one well-formed UTF-8 sequence at the start of `b`: the scalar value and
      the number of bytes used. Overlong forms, surrogates and values past U+10FFFF fail. */
  function DecodeOne(b: seq<Byte>): (r: Option<(char, nat)>)
    ensures r.Some? ==> 1 <= r.value.1 <= |b|
  {
    if |b| == 0 then None
    else
      var b0 := b[0] as int;
      if b0 < 0x80 then Some((b0 as char, 1))
      else if 0xC2 <= b0 < 0xE0 && |b| >= 2 && IsContinuation(b[1]) then
        var v := (b0 - 0xC0) * 64 + (b[1] as int - 0x80);
        Some((v as char, 2))
      else if 0xE0 <= b0 < 0xF0 && |b| >= 3 && IsContinuation(b[1]) && IsContinuation(b[2]) then
        var v := (b0 - 0xE0) * 4096 + (b[1] as int - 0x80) * 64 + (b[2] as int - 0x80);
        if v < 0x800 || (0xD800 <= v < 0xE000) then None else Some((v as char, 3))
      else if 0xF0 <= b0 < 0xF5 && |b| >= 4 && IsContinuation(b[1]) && IsContinuation(b[2])
              && IsContinuation(b[3]) then
        var v := (b0 - 0xF0) * 262144 + (b[1] as int - 0x80) * 4096
                 + (b[2] as int - 0x80) * 64 + (b[3] as int - 0x80);
        if v < 0x10000 || v > 0x10FFFF then None else Some((v as char, 4))
      else None
  }

  function Utf8Decode(b: seq<Byte>): Option<string>
    decreases |b|
  {
    if |b| == 0 then Some([])
    else match DecodeOne(b)
         case None => None
         case Some((c, n)) =>
           match Utf8Decode(b[n..])
           case None => None
           case Some(rest) => Some([c] + rest)
  }

  lemma Utf8Concat(a: string, b: string)
    ensures Utf8Encode(a + b) == Utf8Encode(a) + Utf8Encode(b)
  {
    if |a| > 0 {
      assert (a + b)[1..] == a[1..] + b;
      Utf8Concat(a[1..], b);
    } else {
      assert a + b == b;
    }
  }

  lemma Split2(v: int)
    requires 0 <= v
    ensures (v / 64) * 64 + v % 64 == v
  {
  }

  lemma Split3(v: int)
    requires 0 <= v
    ensures (v / 4096) * 4096 + ((v / 64) % 64) * 64 + v % 64 == v
  {
    assert v / 64 == (v / 4096) * 64 + (v / 64) % 64;
  }

  lemma Split4(v: int)
    requires 0 <= v
    ensures (v / 262144) * 262144 + ((v / 4096) % 64) * 4096 + ((v / 64) % 64) * 64 + v % 64 == v
  {
    assert v / 4096 == (v / 262144) * 64 + (v / 4096) % 64;
    Split3(v);
  }

  lemma DecodeOneAfterEncode(c: char, rest: seq<Byte>)
    ensures DecodeOne(Utf8Char(c) + rest) == Some((c, |Utf8Char(c)|))
  {
    var v := c as int;
    var b := Utf8Char(c) + rest;
    if v < 0x80 {
    } else if v < 0x800 {
      Split2(v);
      assert b[0] as int == 0xC0 + v / 64 && b[1] as int == 0x80 + v % 64;
    } else if v < 0x10000 {
      Split3(v);
      assert b[0] as int == 0xE0 + v / 4096 && b[1] as int == 0x80 + (v / 64) % 64;
      assert b[2] as int == 0x80 + v % 64;
    } else {
      Split4(v);
      assert b[0] as int == 0xF0 + v / 262144 && b[1] as int == 0x80 + (v / 4096) % 64;
      assert b[2] as int == 0x80 + (v / 64) % 64 && b[3] as int == 0x80 + v % 64;
    }
  }

  /** Decoding the UTF-8 encoding of a string gives the string back. */
  lemma {:induction false} Utf8RoundTrip(s: string)
    ensures Utf8Decode(Utf8Encode(s)) == Some(s)
  {
    if |s| > 0 {
      var e := Utf8Char(s[0]);
      var tail := Utf8Encode(s[1..]);
      DecodeOneAfterEncode(s[0], tail);
      assert (e + tail)[|e|..] == tail;
      Utf8RoundTrip(s[1..]);
      assert [s[0]] + s[1..] == s;
    }
  }

  lemma AsciiUtf8(s: string)
    requires forall i :: 0 <= i < |s| ==> s[i] as int < 0x80
    ensures |Utf8Encode(s)| == |s|
    ensures forall i :: 0 <= i < |s| ==> Utf8Encode(s)[i] == s[i] as int
  {
    if |s| > 0 {
      AsciiUtf8(s[1..]);
    }
  }

  // ---------------------------------------------------------------------------
  // The serializer (section 5.2)

  /** Bytes written as themselves: the complement of the form percent-encode set
      (ASCII alphanumerics, '*', '-', '.', '_'). */
  predicate Unescaped(b: Byte)
  {
    (0x30 <= b <= 0x39) || (0x41 <= b <= 0x5A) || (0x61 <= b <= 0x7A)
    || b == 0x2A || b == 0x2D || b == 0x2E || b == 0x5F
  }

  function HexUpper(d: int): char
    requires 0 <= d < 16
  {
    if d < 10 then ('0' as int + d) as char else ('A' as int + d - 10) as char
  }

  /** Percent-encode after encoding, for one byte, with space-as-plus. */
  function EncodeByte(b: Byte): string
  {
    if b == 0x20 then "+"
    else if Unescaped(b) then [b as char]
    else ['%', HexUpper(b / 16), HexUpper(b % 16)]
  }

  function EncodeBytes(bs: seq<Byte>): string
  {
    if |bs| == 0 then "" else EncodeByte(bs[0]) + EncodeBytes(bs[1..])
  }

  function FormEncode(s: string): string
  {
    EncodeBytes(Utf8Encode(s))
  }

  function Entry(p: (string, string)): string
  {
    FormEncode(p.0) + "=" + FormEncode(p.1)
  }

  /** The serialization of a list of name-value tuples: each entry appended, with '&'
      before every entry but the first. */
  function Serialize(pairs: seq<(string, string)>): string
  {
    if |pairs| == 0 then ""
    else if |pairs| == 1 then Entry(pairs[0])
    else Entry(pairs[0]) + "&" + Serialize(pairs[1..])
  }

  // ---------------------------------------------------------------------------
  // The parser (section 5.1), the partner used to state what the serializer means

  function SplitOn(bs: seq<Byte>, sep: Byte): (r: seq<seq<Byte>>)
    ensures |r| >= 1
  {
    if |bs| == 0 then [[]]
    else
      var rest := SplitOn(bs[1..], sep);
      if bs[0] == sep then [[]] + rest else [[bs[0]] + rest[0]] + rest[1..]
  }

  function PlusToSpace(bs: seq<Byte>): seq<Byte>
  {
    seq(|bs|, i requires 0 <= i < |bs| => if bs[i] == 0x2B then 0x20 else bs[i])
  }

  predicate IsHexDigitByte(b: Byte)
  {
    (0x30 <= b <= 0x39) || (0x41 <= b <= 0x46) || (0x61 <= b <= 0x66)
  }

  function HexValue(b: Byte): int
    requires IsHexDigitByte(b)
  {
    if b <= 0x39 then b - 0x30 else if b <= 0x46 then b - 0x41 + 10 else b - 0x61 + 10
  }

  /** Percent-decode: "%" and two hex digits stand for one byte; anything else is kept. */
  function PercentDecode(bs: seq<Byte>): seq<Byte>
    decreases |bs|
  {
    if |bs| == 0 then []
    else if bs[0] == 0x25 && |bs| >= 3 && IsHexDigitByte(bs[1]) && IsHexDigitByte(bs[2]) then
      [HexValue(bs[1]) * 16 + HexValue(bs[2])] + PercentDecode(bs[3..])
    else [bs[0]] + PercentDecode(bs[1..])
  }

  function DecodeComponent(bs: seq<Byte>): seq<Byte>
  {
    PercentDecode(PlusToSpace(bs))
  }

  predicate IsEquals(b: Byte) { b == 0x3D }

  function ParseEntry(bs: seq<Byte>): (seq<Byte>, seq<Byte>)
  {
    match FindIndex(bs, IsEquals)
    case Some(i) => (DecodeComponent(bs[..i]), DecodeComponent(bs[i + 1..]))
    case None => (DecodeComponent(bs), [])
  }

  function ParsePieces(pieces: seq<seq<Byte>>): seq<(seq<Byte>, seq<Byte>)>
  {
    if |pieces| == 0 then []
    else (if |pieces[0]| == 0 then [] else [ParseEntry(pieces[0])]) + ParsePieces(pieces[1..])
  }

  function DecodeTuples(entries: seq<(seq<Byte>, seq<Byte>)>): Option<seq<(string, string)>>
  {
    if |entries| == 0 then Some([])
    else match (Utf8Decode(entries[0].0), Utf8Decode(entries[0].1), DecodeTuples(entries[1..]))
         case (Some(n), Some(v), Some(rest)) => Some([(n, v)] + rest)
         case _ => None
  }

  /** Parses a query string (without its '?') into name-value tuples. */
  function ParseQuery(s: string): Option<seq<(string, string)>>
  {
    DecodeTuples(ParsePieces(SplitOn(Utf8Encode(s), 0x26)))
  }

  // ---------------------------------------------------------------------------
  // Round trip

  lemma EncodeBytesConcat(a: seq<Byte>, b: seq<Byte>)
    ensures EncodeBytes(a + b) == EncodeBytes(a) + EncodeBytes(b)
  {
    if |a| > 0 {
      assert (a + b)[1..] == a[1..] + b;
      EncodeBytesConcat(a[1..], b);
    } else {
      assert a + b == b;
    }
  }

  /** Every character the serializer writes for a component is ASCII and none is
      '&' or '='; a '%' is always followed by two hex digits. */
  lemma {:induction false} EncodedIsAscii(bs: seq<Byte>)
    ensures forall i :: 0 <= i < |EncodeBytes(bs)| ==>
      EncodeBytes(bs)[i] as int < 0x80 && EncodeBytes(bs)[i] != '&' && EncodeBytes(bs)[i] != '='
  {
    if |bs| > 0 {
      EncodedIsAscii(bs[1..]);
      var e := EncodeBytes(bs);
      assert e == EncodeByte(bs[0]) + EncodeBytes(bs[1..]);
      forall i | 0 <= i < |e| ensures e[i] as int < 0x80 && e[i] != '&' && e[i] != '=' {
        if i >= |EncodeByte(bs[0])| {
          assert e[i] == EncodeBytes(bs[1..])[i - |EncodeByte(bs[0])|];
        }
      }
    }
  }

  lemma HexRoundTrip(d: int)
    requires 0 <= d < 16
    ensures IsHexDigitByte(HexUpper(d) as int) && HexValue(HexUpper(d) as int) == d
    ensures HexUpper(d) != '+'
  {
  }

  lemma PlusToSpaceConcat(a: seq<Byte>, b: seq<Byte>)
    ensures PlusToSpace(a + b) == PlusToSpace(a) + PlusToSpace(b)
  {
  }

  /** Decoding what the serializer wrote for one byte gives the byte, consuming exactly
      what was written. */
  lemma DecodeOneEncodedByte(b: Byte, rest: seq<Byte>)
    ensures PercentDecode(PlusToSpace(Utf8Encode(EncodeByte(b))) + rest) == [b] + PercentDecode(rest)
  {
    var e := EncodeByte(b);
    AsciiUtf8(e);
    var u := Utf8Encode(e);
    if b == 0x20 || Unescaped(b) {
      assert u == [e[0] as int];
      assert (PlusToSpace(u) + rest)[1..] == rest;
    } else {
      HexRoundTrip(b / 16);
      HexRoundTrip(b % 16);
      assert u == [0x25, HexUpper(b / 16) as int, HexUpper(b % 16) as int];
      assert PlusToSpace(u) == u;
      assert (u + rest)[3..] == rest;
    }
  }

  lemma {:induction false} DecodeComponentOfEncode(bs: seq<Byte>)
    ensures DecodeComponent(Utf8Encode(EncodeBytes(bs))) == bs
  {
    if |bs| > 0 {
      var head := EncodeByte(bs[0]);
      var tail := EncodeBytes(bs[1..]);
      Utf8Concat(head, tail);
      PlusToSpaceConcat(Utf8Encode(head), Utf8Encode(tail));
      DecodeOneEncodedByte(bs[0], PlusToSpace(Utf8Encode(tail)));
      DecodeComponentOfEncode(bs[1..]);
      assert [bs[0]] + bs[1..] == bs;
    }
  }

  lemma {:induction false} SplitPlain(a: seq<Byte>, b: seq<Byte>, sep: Byte)
    requires forall i :: 0 <= i < |a| ==> a[i] != sep
    ensures SplitOn(a + b, sep) == [a + SplitOn(b, sep)[0]] + SplitOn(b, sep)[1..]
  {
    if |a| > 0 {
      assert (a + b)[1..] == a[1..] + b;
      SplitPlain(a[1..], b, sep);
      assert [a[0]] + (a[1..] + SplitOn(b, sep)[0]) == a + SplitOn(b, sep)[0];
    } else {
      assert a + b == b;
      var r := SplitOn(b, sep);
      assert r == [r[0]] + r[1..];
      assert a + r[0] == r[0];
    }
  }

  /** The UTF-8 bytes of an encoded component: one per character, none of them '&' or '='. */
  lemma ComponentBytes(s: string)
    ensures |Utf8Encode(FormEncode(s))| == |FormEncode(s)|
    ensures forall i :: 0 <= i < |Utf8Encode(FormEncode(s))| ==>
              Utf8Encode(FormEncode(s))[i] != 0x26 && Utf8Encode(FormEncode(s))[i] != 0x3D
  {
    EncodedIsAscii(Utf8Encode(s));
    AsciiUtf8(FormEncode(s));
  }

  lemma SingleByte(c: char)
    requires c as int < 0x80
    ensures Utf8Encode([c]) == [c as int]
  {
    assert [c][1..] == [];
  }

  /** The bytes of one entry: UTF-8 of its name's encoding, '=', UTF-8 of its value's encoding. */
  lemma EntryBytes(p: (string, string))
    ensures Utf8Encode(Entry(p)) ==
            Utf8Encode(FormEncode(p.0)) + [0x3D] + Utf8Encode(FormEncode(p.1))
    ensures forall i :: 0 <= i < |Utf8Encode(Entry(p))| ==> Utf8Encode(Entry(p))[i] != 0x26
    ensures forall i :: 0 <= i < |Utf8Encode(FormEncode(p.0))| ==> Utf8Encode(FormEncode(p.0))[i] != 0x3D
  {
    var n, v := FormEncode(p.0), FormEncode(p.1);
    Utf8Concat(n, "=");
    Utf8Concat(n + "=", v);
    SingleByte('=');
    ComponentBytes(p.0);
    ComponentBytes(p.1);
  }

  lemma FirstEquals(n: seq<Byte>, v: seq<Byte>)
    requires forall i :: 0 <= i < |n| ==> n[i] != 0x3D
    ensures FindIndex(n + [0x3D] + v, IsEquals) == Some(|n|)
  {
    var e := n + [0x3D] + v;
    assert IsEquals(e[|n|]);
    assert forall j :: 0 <= j < |n| ==> e[j] == n[j];
  }

  lemma ParseOneEntry(p: (string, string))
    ensures ParseEntry(Utf8Encode(Entry(p))) == (Utf8Encode(p.0), Utf8Encode(p.1))
  {
    EntryBytes(p);
    var n := Utf8Encode(FormEncode(p.0));
    var v := Utf8Encode(FormEncode(p.1));
    var e := n + [0x3D] + v;
    FirstEquals(n, v);
    assert e[..|n|] == n && e[|n| + 1..] == v;
    DecodeComponentOfEncode(Utf8Encode(p.0));
    DecodeComponentOfEncode(Utf8Encode(p.1));
  }

  /** The byte-level tuples a parser should find: the UTF-8 of every name and value. */
  function EncodedTuples(pairs: seq<(string, string)>): seq<(seq<Byte>, seq<Byte>)>
  {
    if |pairs| == 0 then [] else [(Utf8Encode(pairs[0].0), Utf8Encode(pairs[0].1))] + EncodedTuples(pairs[1..])
  }

  lemma SerializedCons(pairs: seq<(string, string)>)
    requires |pairs| >= 2
    ensures Utf8Encode(Serialize(pairs)) ==
            Utf8Encode(Entry(pairs[0])) + ([0x26] + Utf8Encode(Serialize(pairs[1..])))
  {
    AmpJoinBytes(Entry(pairs[0]), Serialize(pairs[1..]));
  }

  lemma AmpJoinBytes(a: string, s: string)
    ensures Utf8Encode(a + "&" + s) == Utf8Encode(a) + ([0x26] + Utf8Encode(s))
  {
    Utf8Concat(a, "&");
    Utf8Concat(a + "&", s);
    SingleByte('&');
  }

  lemma SplitCons(e: seq<Byte>, tail: seq<Byte>)
    requires forall i :: 0 <= i < |e| ==> e[i] != 0x26
    ensures SplitOn(e + ([0x26] + tail), 0x26) == [e] + SplitOn(tail, 0x26)
  {
    SplitPlain(e, [0x26] + tail, 0x26);
    assert ([0x26] + tail)[1..] == tail;
    assert e + [] == e;
  }

  lemma SplitLast(e: seq<Byte>)
    requires forall i :: 0 <= i < |e| ==> e[i] != 0x26
    ensures SplitOn(e, 0x26) == [e]
  {
    SplitPlain(e, [], 0x26);
    assert e + [] == e;
  }

  lemma ParsePiecesCons(e: seq<Byte>, rest: seq<seq<Byte>>)
    requires |e| > 0
    ensures ParsePieces([e] + rest) == [ParseEntry(e)] + ParsePieces(rest)
  {
    assert ([e] + rest)[1..] == rest;
  }

  lemma {:induction false} ParseSerializedBytes(pairs: seq<(string, string)>)
    ensures ParsePieces(SplitOn(Utf8Encode(Serialize(pairs)), 0x26)) == EncodedTuples(pairs)
  {
    if |pairs| > 0 {
      var e := Utf8Encode(Entry(pairs[0]));
      EntryBytes(pairs[0]);
      ParseOneEntry(pairs[0]);
      if |pairs| == 1 {
        SplitLast(e);
        ParsePiecesCons(e, []);
      } else {
        var tail := Utf8Encode(Serialize(pairs[1..]));
        SerializedCons(pairs);
        SplitCons(e, tail);
        ParsePiecesCons(e, SplitOn(tail, 0x26));
        ParseSerializedBytes(pairs[1..]);
      }
    }
  }

  lemma {:induction false} DecodeEncodedTuples(pairs: seq<(string, string)>)
    ensures DecodeTuples(EncodedTuples(pairs)) == Some(pairs)
  {
    if |pairs| > 0 {
      Utf8RoundTrip(pairs[0].0);
      Utf8RoundTrip(pairs[0].1);
      DecodeEncodedTuples(pairs[1..]);
      assert EncodedTuples(pairs)[1..] == EncodedTuples(pairs[1..]);
      assert [pairs[0]] + pairs[1..] == pairs;
    }
  }

  /** Parsing the serialization of any list of name-value tuples gives the list back. */
  lemma SerializeRoundTrip(pairs: seq<(string, string)>)
    ensures ParseQuery(Serialize(pairs)) == Some(pairs)
  {
    ParseSerializedBytes(pairs);
    DecodeEncodedTuples(pairs);
  }

  /** Written only with ASCII characters the serializer keeps. */
  predicate IsPlain(s: string)
  {
    forall i :: 0 <= i < |s| ==> s[i] as int < 0x80 && Unescaped(s[i] as int)
  }

  /** A component made only of characters the serializer keeps is written unchanged. */
  lemma {:induction false} FormEncodeUnescaped(s: string)
    requires IsPlain(s)
    ensures FormEncode(s) == s
  {
    if |s| > 0 {
      FormEncodeUnescaped(s[1..]);
      assert Utf8Encode(s) == [s[0] as int] + Utf8Encode(s[1..]);
      assert Utf8Encode(s)[1..] == Utf8Encode(s[1..]);
      assert [s[0]] + s[1..] == s;
    }
  }

  /** An entry whose name is plain starts with that name and '='. */
  lemma PlainName(name: string, value: string)
    requires IsPlain(name)
    ensures Entry((name, value)) == name + "=" + FormEncode(value)
  {
    FormEncodeUnescaped(name);
  }

  /** A serialization starts with its first entry. */
  lemma SerializeStartsWithEntry(pairs: seq<(string, string)>)
    requires |pairs| >= 1
    ensures |Serialize(pairs)| >= |Entry(pairs[0])| && Serialize(pairs)[..|Entry(pairs[0])|] == Entry(pairs[0])
  {
    var e := Entry(pairs[0]);
    var rest := if |pairs| == 1 then "" else "&" + Serialize(pairs[1..]);
    assert Serialize(pairs) == e + rest;
    JoinStartsWith(e, rest);
  }

  lemma JoinStartsWith(a: string, b: string)
    ensures |a + b| >= |a| && (a + b)[..|a|] == a
  {
  }
}
