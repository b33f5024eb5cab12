/** The UTF-16 codec for names and cookies. A Go string is a byte string, read as UTF-8; the code units
    follow sections 2.1 and 2.2 of RFC 2781. */
module Utf16 {
  import opened Bytes

  type Rune = r: int | 0 <= r <= 0x10FFFF

  const REPLACEMENT: Rune := 0xFFFD

  predicate IsSurrogate(r: int) {
    0xD800 <= r <= 0xDFFF
  }

  // ---- UTF-8, as Go converts between strings and runes ----

  /** utf8.EncodeRune; what is no scalar value becomes U+FFFD. */
  function EncodeRune(r: Rune): (b: Bytes)
    ensures 1 <= |b| <= 4
    ensures b[|b| - 1] == 0 <==> r == 0
  {
    if r < 0x80 then [r]
    else if r < 0x800 then [0xC0 + r / 64, 0x80 + r % 64]
    else if IsSurrogate(r) then [0xEF, 0xBF, 0xBD]
    else if r < 0x1_0000 then [0xE0 + r / 4096, 0x80 + r / 64 % 64, 0x80 + r % 64]
    else [0xF0 + r / 262144, 0x80 + r / 4096 % 64, 0x80 + r / 64 % 64, 0x80 + r % 64]
  }

  /** The first rune of a string and the bytes it takes; an ill-formed byte is U+FFFD of width one. */
  datatype Decoded = Decoded(rune: Rune, width: nat)

  const ILL_FORMED: Decoded := Decoded(REPLACEMENT, 1)

  predicate Continues(s: Bytes, i: nat) {
    i < |s| && 0x80 <= s[i] <= 0xBF
  }

  function DecodeRune(s: Bytes): (d: Decoded)
    requires s != []
    ensures 1 <= d.width <= |s|
    ensures !IsSurrogate(d.rune)
  {
    var b0 := s[0] as int;
    if b0 < 0x80 then Decoded(b0, 1)
    else if b0 < 0xC2 || b0 > 0xF4 || !Continues(s, 1) then ILL_FORMED
    else
      var b1 := s[1] as int;
      if b0 < 0xE0 then Decoded((b0 - 0xC0) * 64 + (b1 - 0x80), 2)
      else if b0 < 0xF0 then
        if (b0 == 0xE0 && b1 < 0xA0) || (b0 == 0xED && b1 > 0x9F) || !Continues(s, 2) then ILL_FORMED
        else Decoded((b0 - 0xE0) * 4096 + (b1 - 0x80) * 64 + (s[2] as int - 0x80), 3)
      else
        if (b0 == 0xF0 && b1 < 0x90) || (b0 == 0xF4 && b1 > 0x8F) || !Continues(s, 2) || !Continues(s, 3)
        then ILL_FORMED
        else Decoded((b0 - 0xF0) * 262144 + (b1 - 0x80) * 4096 + (s[2] as int - 0x80) * 64 + (s[3] as int - 0x80), 4)
  }

  /** The conversion []rune(s). */
  function Runes(s: Bytes): (rs: seq<Rune>)
    ensures forall r | r in rs :: !IsSurrogate(r)
  {
    if s == [] then []
    else
      var d := DecodeRune(s);
      [d.rune] + Runes(s[d.width..])
  }

  function Utf8(rs: seq<Rune>): Bytes {
    if rs == [] then [] else EncodeRune(rs[0]) + Utf8(rs[1..])
  }

  predicate ValidUtf8(s: Bytes) {
    s == [] || (DecodeRune(s) != ILL_FORMED && ValidUtf8(s[DecodeRune(s).width..]))
  }

  lemma ReencodeShort(s: Bytes)
    requires s != [] && DecodeRune(s) != ILL_FORMED && DecodeRune(s).width <= 2
    ensures EncodeRune(DecodeRune(s).rune) == s[..DecodeRune(s).width]
  {
    if DecodeRune(s).width == 2 {
      SixBits(s[0] as int - 0xC0, s[1] as int - 0x80);
    }
  }

  lemma ReencodeThree(s: Bytes)
    requires s != [] && DecodeRune(s).width == 3
    ensures EncodeRune(DecodeRune(s).rune) == s[..3]
  {
    var r, hi := DecodeRune(s).rune, (s[0] as int - 0xE0) * 64 + (s[1] as int - 0x80);
    SixBits(s[0] as int - 0xE0, s[1] as int - 0x80);
    SixBits(hi, s[2] as int - 0x80);
    assert r == hi * 64 + (s[2] as int - 0x80) && r / 4096 == hi / 64;
    assert 0x800 <= r < 0x1_0000;
  }

  lemma ReencodeFour(s: Bytes)
    requires s != [] && DecodeRune(s).width == 4
    ensures EncodeRune(DecodeRune(s).rune) == s[..4]
  {
    var r, top := DecodeRune(s).rune, (s[0] as int - 0xF0) * 64 + (s[1] as int - 0x80);
    var hi := top * 64 + (s[2] as int - 0x80);
    SixBits(s[0] as int - 0xF0, s[1] as int - 0x80);
    SixBits(top, s[2] as int - 0x80);
    SixBits(hi, s[3] as int - 0x80);
    assert r == hi * 64 + (s[3] as int - 0x80);
    assert r / 4096 == hi / 64 && r / 262144 == hi / 4096 == top / 64;
  }

  /** Decoding a well-formed rune and encoding it again gives its bytes back. */
  lemma ReencodeRune(s: Bytes)
    requires s != [] && DecodeRune(s) != ILL_FORMED
    ensures EncodeRune(DecodeRune(s).rune) == s[..DecodeRune(s).width]
  {
    hide EncodeRune;
    var w := DecodeRune(s).width;
    assert w <= 4;
    if w <= 2 { ReencodeShort(s); } else if w == 3 { ReencodeThree(s); } else { ReencodeFour(s); }
  }

  lemma SixBits(hi: int, lo: int)
    requires 0 <= lo < 64
    ensures (hi * 64 + lo) / 64 == hi && (hi * 64 + lo) % 64 == lo
  {
  }

  /** Encoding a scalar value and decoding gives it back, whatever follows. */
  lemma DecodeEncoded(r: Rune, post: Bytes)
    requires !IsSurrogate(r)
    ensures DecodeRune(EncodeRune(r) + post) == Decoded(r, |EncodeRune(r)|)
  {
    var e := EncodeRune(r);
    var s := e + post;
    assert forall i | 0 <= i < |e| :: s[i] == e[i];
    if 0x1_0000 <= r {
      assert r == 262144 * (r / 262144) + 4096 * (r / 4096 % 64) + 64 * (r / 64 % 64) + r % 64 by { SixBitDigits(r); }
    } else if 0x800 <= r {
      assert r == 4096 * (r / 4096) + 64 * (r / 64 % 64) + r % 64 by { SixBitDigits(r); }
    }
  }

  lemma SixBitDigits(r: nat)
    ensures r == 4096 * (r / 4096) + 64 * (r / 64 % 64) + r % 64
    ensures r == 262144 * (r / 262144) + 4096 * (r / 4096 % 64) + 64 * (r / 64 % 64) + r % 64
  {
    var a := r / 64;
    assert r == 64 * a + r % 64;
    assert a == 64 * (a / 64) + a % 64 && a / 64 == r / 4096;
    var b := r / 4096;
    assert b == 64 * (b / 64) + b % 64 && b / 64 == r / 262144;
  }

  /** Strings of scalar values are read as they were written. */
  lemma {:induction false} Utf8RoundTrip(rs: seq<Rune>)
    requires forall r | r in rs :: !IsSurrogate(r)
    ensures Runes(Utf8(rs)) == rs
  {
    hide EncodeRune, DecodeRune;
    if rs != [] {
      var later := Utf8(rs[1..]);
      Utf8RoundTrip(rs[1..]);
      DecodeEncoded(rs[0], later);
      assert (EncodeRune(rs[0]) + later)[|EncodeRune(rs[0])|..] == later;
    }
  }

  lemma {:induction false} Utf8Append(a: seq<Rune>, b: seq<Rune>)
    ensures Utf8(a + b) == Utf8(a) + Utf8(b)
  {
    hide EncodeRune;
    if a == [] {
      assert a + b == b;
    } else {
      Utf8Append(a[1..], b);
      assert (a + b)[1..] == a[1..] + b;
    }
  }

  // ---- code units ----

  type Unit = u: int | 0 <= u < 0x1_0000

  function UnitsOfRune(r: Rune): seq<Unit> {
    if IsSurrogate(r) then [REPLACEMENT]
    else if r < 0x1_0000 then [r]
    else [0xD800 + (r - 0x1_0000) / 1024, 0xDC00 + (r - 0x1_0000) % 1024]
  }

  /** Section 2.1 of RFC 2781: the two units are a high and a low surrogate holding ten bits each. */
  lemma SurrogatePair(r: Rune)
    requires r >= 0x1_0000
    ensures var us := UnitsOfRune(r);
            && |us| == 2
            && 0xD800 <= us[0] <= 0xDBFF && 0xDC00 <= us[1] <= 0xDFFF
            && r == 0x1_0000 + (us[0] as int - 0xD800) * 1024 + (us[1] as int - 0xDC00)
  {
    var v := r - 0x1_0000;
    assert v == 1024 * (v / 1024) + v % 1024;
  }

  /** utf16.Encode. */
  function Units(rs: seq<Rune>): seq<Unit> {
    if rs == [] then [] else UnitsOfRune(rs[0]) + Units(rs[1..])
  }

  /** utf16.Decode of one unit on its own. */
  function RuneOfUnit(u: Unit): Rune {
    if IsSurrogate(u) then REPLACEMENT else u
  }

  function PutUnits(us: seq<Unit>): (b: Bytes)
    ensures |b| == 2 * |us|
  {
    if us == [] then [] else Put16(us[0]) + PutUnits(us[1..])
  }

  function GetRunes(b: Bytes): (rs: seq<Rune>)
    requires |b| % 2 == 0
    ensures |rs| == |b| / 2
  {
    if b == [] then [] else [RuneOfUnit(Get16(b, 0))] + GetRunes(b[2..])
  }

  function StripNul(s: Bytes): Bytes {
    if s != [] && s[|s| - 1] == 0 then s[..|s| - 1] else s
  }

  function Encoded(s: Bytes): Bytes {
    PutUnits(Units(Runes(s)))
  }

  datatype DecodeResult = Text(text: Bytes) | OddLength

  function DecodedText(b: Bytes): DecodeResult {
    if |b| % 2 != 0 then OddLength else Text(StripNul(Utf8(GetRunes(b))))
  }

  /** EncodeUTF16: one little-endian unit after the other. */
  method EncodeUTF16(s: Bytes) returns (ret: Bytes)
    ensures ret == Encoded(s)
  {
    var enc := Units(Runes(s));
    ret := [];
    var c := 0;
    while c < |enc|
      invariant 0 <= c <= |enc|
      invariant ret + PutUnits(enc[c..]) == PutUnits(enc)
    {
      assert enc[c..][1..] == enc[c + 1..];
      ret := ret + Put16(enc[c]);
      c := c + 1;
    }
  }

  /** DecodeUTF16: one unit at a time, then one trailing zero byte off. */
  method DecodeUTF16(b: Bytes) returns (ret: DecodeResult)
    ensures ret == DecodedText(b)
  {
    hide EncodeRune, RuneOfUnit;
    if |b| % 2 != 0 {
      return OddLength;
    }
    var out: Bytes := [];
    var i := 0;
    while i < |b|
      invariant 0 <= i <= |b| && i % 2 == 0
      invariant out + Utf8(GetRunes(b[i..])) == Utf8(GetRunes(b))
    {
      var u := Get16(b, i);
      assert Get16(b[i..], 0) == u && b[i..][2..] == b[i + 2..];
      assert GetRunes(b[i..])[1..] == GetRunes(b[i + 2..]);
      out := out + EncodeRune(RuneOfUnit(u));
      i := i + 2;
    }
    if |out| > 0 && out[|out| - 1] == 0 {
      out := out[..|out| - 1];
    }
    ret := Text(out);
  }

  // ---- what the codec means ----

  /** What survives of a rune: outside the basic plane its two halves are decoded one by one. */
  function Survives(r: Rune): seq<Rune> {
    if r < 0x1_0000 then [r] else [REPLACEMENT, REPLACEMENT]
  }

  function SurvivesAll(rs: seq<Rune>): seq<Rune> {
    if rs == [] then [] else Survives(rs[0]) + SurvivesAll(rs[1..])
  }

  function WithoutLastNul(rs: seq<Rune>): seq<Rune> {
    if rs != [] && rs[|rs| - 1] == 0 then rs[..|rs| - 1] else rs
  }

  lemma {:induction false} PutUnitsAppend(a: seq<Unit>, b: seq<Unit>)
    ensures PutUnits(a + b) == PutUnits(a) + PutUnits(b)
  {
    hide Put16;
    if a == [] {
      assert a + b == b;
    } else {
      PutUnitsAppend(a[1..], b);
      assert (a + b)[1..] == a[1..] + b;
    }
  }

  lemma {:induction false} GetRunesAppend(a: Bytes, b: Bytes)
    requires |a| % 2 == 0 && |b| % 2 == 0
    ensures GetRunes(a + b) == GetRunes(a) + GetRunes(b)
  {
    if a == [] {
      assert a + b == b;
    } else {
      GetRunesAppend(a[2..], b);
      assert (a + b)[2..] == a[2..] + b && Get16(a + b, 0) == Get16(a, 0);
    }
  }

  lemma {:induction false} OneUnit(u: Unit, later: Bytes)
    requires |later| % 2 == 0
    ensures GetRunes(Put16(u) + later) == [RuneOfUnit(u)] + GetRunes(later)
  {
    hide Put16, Get16, RuneOfUnit;
    var b := Put16(u) + later;
    Get16OfPut16(u, [], later);
    assert [] + Put16(u) + later == b;
    assert b[2..] == later;
  }

  lemma {:induction false} FirstUnit(us: seq<Unit>)
    requires us != []
    ensures GetRunes(PutUnits(us)) == [RuneOfUnit(us[0])] + GetRunes(PutUnits(us[1..]))
  {
    hide Put16, GetRunes, RuneOfUnit;
    OneUnit(us[0], PutUnits(us[1..]));
  }

  lemma NoUnits()
    ensures GetRunes(PutUnits([])) == []
  {
  }

  lemma {:induction false} UnitRoundTrip(r: Rune)
    requires !IsSurrogate(r)
    ensures GetRunes(PutUnits(UnitsOfRune(r))) == Survives(r)
  {
    hide PutUnits, GetRunes;
    var us := UnitsOfRune(r);
    NoUnits();
    FirstUnit(us);
    if |us| == 2 {
      FirstUnit(us[1..]);
    }
  }

  lemma {:induction false} RunesRoundTrip(rs: seq<Rune>)
    requires forall r | r in rs :: !IsSurrogate(r)
    ensures GetRunes(PutUnits(Units(rs))) == SurvivesAll(rs)
  {
    hide PutUnits, GetRunes, Survives, UnitsOfRune;
    NoUnits();
    if rs != [] {
      RunesRoundTrip(rs[1..]);
      UnitRoundTrip(rs[0]);
      PutUnitsAppend(UnitsOfRune(rs[0]), Units(rs[1..]));
      GetRunesAppend(PutUnits(UnitsOfRune(rs[0])), PutUnits(Units(rs[1..])));
    }
  }

  /** The trailing zero byte is the trailing NUL rune, never the tail of another rune. */
  lemma StripIsRuneLevel(rs: seq<Rune>)
    ensures StripNul(Utf8(rs)) == Utf8(WithoutLastNul(rs))
  {
    hide EncodeRune;
    if rs != [] {
      var n := |rs| - 1;
      Utf8Append(rs[..n], [rs[n]]);
      assert rs == rs[..n] + [rs[n]];
      assert Utf8([rs[n]]) == EncodeRune(rs[n]) + Utf8([]);
      var s, last := Utf8(rs), EncodeRune(rs[n]);
      assert s == Utf8(rs[..n]) + last;
      assert s[|s| - 1] == last[|last| - 1];
      if rs[n] == 0 {
        assert |EncodeRune(0)| == 1 by { ZeroByte(); }
        assert s[..|s| - 1] == Utf8(rs[..n]);
      }
    }
  }

  lemma ZeroByte()
    ensures EncodeRune(0) == [0]
  {
  }

  lemma CodecStripped(s: Bytes)
    ensures DecodedText(Encoded(s)) == Text(StripNul(Utf8(SurvivesAll(Runes(s)))))
  {
    RunesRoundTrip(Runes(s));
  }

  /** For every string: its runes, those outside the basic plane as two U+FFFD, less one trailing NUL. */
  lemma CodecMeaning(s: Bytes)
    ensures DecodedText(Encoded(s)) == Text(Utf8(WithoutLastNul(SurvivesAll(Runes(s)))))
  {
    CodecStripped(s);
    StripIsRuneLevel(SurvivesAll(Runes(s)));
  }

  predicate BasicPlane(s: Bytes) {
    forall r | r in Runes(s) :: r < 0x1_0000
  }

  /** How many places of a string do not survive: ill-formed bytes and runes outside the basic plane. */
  function Losses(s: Bytes): nat {
    if s == [] then 0
    else
      var d := DecodeRune(s);
      (if d == ILL_FORMED || d.rune >= 0x1_0000 then 1 else 0) + Losses(s[d.width..])
  }

  lemma {:induction false} NoLosses(s: Bytes)
    ensures Losses(s) == 0 <==> ValidUtf8(s) && BasicPlane(s)
  {
    hide DecodeRune;
    if s != [] {
      NoLosses(s[DecodeRune(s).width..]);
      var d, later := DecodeRune(s), Runes(s[DecodeRune(s).width..]);
      assert Runes(s) == [d.rune] + later;
      assert d.rune in Runes(s) && forall r | r in later :: r in Runes(s);
    }
  }

  lemma SurvivingWidth(s: Bytes)
    requires s != []
    ensures var d := DecodeRune(s);
            if d == ILL_FORMED || d.rune >= 0x1_0000 then |Utf8(Survives(d.rune))| == d.width + 2
            else Utf8(Survives(d.rune)) == s[..d.width]
  {
    var d := DecodeRune(s);
    var three: Bytes := [0xEF, 0xBF, 0xBD];
    if d == ILL_FORMED || d.rune >= 0x1_0000 {
      assert EncodeRune(REPLACEMENT) == three;
      assert Utf8([REPLACEMENT]) == three;
      assert Utf8([REPLACEMENT, REPLACEMENT]) == three + Utf8([REPLACEMENT]);
    } else {
      ReencodeRune(s);
      assert Utf8([d.rune]) == EncodeRune(d.rune);
    }
  }

  lemma {:induction false} SurvivingBytes(s: Bytes)
    ensures |Utf8(SurvivesAll(Runes(s)))| == |s| + 2 * Losses(s)
    ensures Losses(s) == 0 ==> Utf8(SurvivesAll(Runes(s))) == s
  {
    hide DecodeRune, EncodeRune;
    if s != [] {
      var d := DecodeRune(s);
      SurvivingBytes(s[d.width..]);
      SurvivingWidth(s);
      Utf8Append(Survives(d.rune), SurvivesAll(Runes(s[d.width..])));
      assert s == s[..d.width] + s[d.width..];
    }
  }

  /** The codec is the identity exactly on well-formed strings of the basic plane that do not end in NUL. */
  lemma CodecIdentity(s: Bytes)
    ensures DecodedText(Encoded(s)) == Text(s)
       <==> ValidUtf8(s) && BasicPlane(s) && (s == [] || s[|s| - 1] != 0)
  {
    hide Runes, Utf8, SurvivesAll, Losses, DecodedText, Encoded, ValidUtf8, BasicPlane;
    CodecStripped(s);
    SurvivingBytes(s);
    NoLosses(s);
    var out := Utf8(SurvivesAll(Runes(s)));
    assert |StripNul(out)| >= |out| - 1;
    if Losses(s) > 0 {
      assert |StripNul(out)| > |s|;
    }
  }

  // ---- truncated encodings ----

  lemma {:induction false} UnitsPerRune(rs: seq<Rune>)
    ensures |rs| <= |Units(rs)| <= 2 * |rs|
  {
    if rs != [] {
      UnitsPerRune(rs[1..]);
    }
  }

  lemma {:induction false} DecodedIsScalar(b: Bytes)
    requires |b| % 2 == 0
    ensures forall r | r in GetRunes(b) :: !IsSurrogate(r)
  {
    if b != [] {
      DecodedIsScalar(b[2..]);
    }
  }

  /** What `n` bytes decode to has at most half as many runes. */
  lemma DecodedRunes(b: Bytes)
    requires |b| % 2 == 0
    ensures |Runes(DecodedText(b).text)| <= |b| / 2
  {
    hide Runes, Utf8, GetRunes;
    var rs := GetRunes(b);
    DecodedIsScalar(b);
    StripIsRuneLevel(rs);
    assert forall r | r in WithoutLastNul(rs) :: r in rs;
    Utf8RoundTrip(WithoutLastNul(rs));
  }

  /** An encoding cut short by half or more of its bytes never decodes to the string. */
  lemma CutShortIsLost(s: Bytes, n: nat)
    requires n % 2 == 0 && 2 * n < |Encoded(s)|
    ensures DecodedText(Encoded(s)[..n]) != Text(s)
  {
    hide Runes, Units, PutUnits, DecodedText;
    UnitsPerRune(Runes(s));
    EvenIsText(Encoded(s)[..n]);
    DecodedRunes(Encoded(s)[..n]);
  }

  lemma EvenIsText(b: Bytes)
    requires |b| % 2 == 0
    ensures DecodedText(b).Text?
  {
  }
}
