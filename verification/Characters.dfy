/** Strings as sequences of characters (section 3 of RFC 3629). */
module Characters {
  import opened Varint
  import opened Paths

  // The byte-by-byte check of strings accepts exactly the encodings of sequences of Unicode scalar values.

  /** A code point that is not a surrogate. */
  type Scalar = c: int | 0 <= c < 0xD800 || 0xE000 <= c < 0x11_0000 witness 0

  /** The bytes of a character: its bits in groups of six, after a first byte that tells their number. */
  ghost function Spell(c: Scalar): (s: seq<byte>)
    ensures s != []
  {
    if c < 0x80 then [c]
    else if c < 0x800 then [0xC0 + c / 64, 0x80 + c % 64]
    else if c < 0x1_0000 then [0xE0 + c / 4096, 0x80 + c / 64 % 64, 0x80 + c % 64]
    else [0xF0 + c / 262144, 0x80 + c / 4096 % 64, 0x80 + c / 64 % 64, 0x80 + c % 64]
  }

  ghost function SpellAll(cs: seq<Scalar>): seq<byte>
  {
    if cs == [] then [] else Spell(cs[0]) + SpellAll(cs[1..])
  }

  lemma {:induction false} SpelledWidth(c: Scalar, rest: seq<byte>)
    ensures Utf8Width(Spell(c) + rest) == |Spell(c)|
  {
    var s := Spell(c) + rest;
    assert forall i :: 0 <= i < |Spell(c)| ==> s[i] == Spell(c)[i];
  }

  /** The six bits of a continuation byte. */
  ghost function Six(b: byte): int { (b as int) - 0x80 }

  lemma {:induction false} Sixes(n: int, six: int)
    requires 0 <= six < 64
    ensures (64 * n + six) / 64 == n && (64 * n + six) % 64 == six
  {
  }

  /** The character of two, three or four bytes. */
  lemma {:induction false} Two(s: seq<byte>) returns (c: Scalar)
    requires |s| == 2 && 0xC2 <= s[0] <= 0xDF && 0x80 <= s[1] <= 0xBF
    ensures s == Spell(c)
  {
    c := 64 * (s[0] as int - 0xC0) + Six(s[1]);
    Sixes(s[0] as int - 0xC0, Six(s[1]));
  }

  lemma {:induction false} Three(s: seq<byte>) returns (c: Scalar)
    requires |s| == 3 && 0xE0 <= s[0] <= 0xEF && 0x80 <= s[1] <= 0xBF && 0x80 <= s[2] <= 0xBF
    requires (s[0] == 0xE0 ==> s[1] >= 0xA0) && (s[0] == 0xED ==> s[1] < 0xA0)
    ensures s == Spell(c)
  {
    var high := 64 * (s[0] as int - 0xE0) + Six(s[1]);
    c := 64 * high + Six(s[2]);
    Sixes(high, Six(s[2]));
    Sixes(s[0] as int - 0xE0, Six(s[1]));
    assert c / 4096 == c / 64 / 64;
  }

  lemma {:induction false} Four(s: seq<byte>) returns (c: Scalar)
    requires |s| == 4 && 0xF0 <= s[0] <= 0xF4 && 0x80 <= s[1] <= 0xBF && 0x80 <= s[2] <= 0xBF && 0x80 <= s[3] <= 0xBF
    requires (s[0] == 0xF0 ==> s[1] >= 0x90) && (s[0] == 0xF4 ==> s[1] < 0x90)
    ensures s == Spell(c)
  {
    var high := 64 * (s[0] as int - 0xF0) + Six(s[1]);
    var mid := 64 * high + Six(s[2]);
    c := 64 * mid + Six(s[3]);
    Sixes(mid, Six(s[3]));
    Sixes(high, Six(s[2]));
    Sixes(s[0] as int - 0xF0, Six(s[1]));
    assert c / 4096 == c / 64 / 64 && c / 262144 == c / 64 / 64 / 64;
  }

  /** The character at the start of a string. */
  lemma {:induction false} FirstCharacter(s: seq<byte>) returns (c: Scalar)
    requires s != [] && Utf8Width(s) > 0
    ensures s[..Utf8Width(s)] == Spell(c)
  {
    hide Spell;
    var n := Utf8Width(s);
    if n == 1 {
      c := s[0];
      Ascii(s[0]);
    } else if n == 2 {
      c := Two(s[..2]);
    } else if n == 3 {
      c := Three(s[..3]);
    } else {
      c := Four(s[..4]);
    }
  }

  lemma {:induction false} Ascii(c: byte)
    requires c < 0x80
    ensures Spell(c) == [c]
  {
  }

  lemma {:induction false} SpelledValid(cs: seq<Scalar>)
    ensures ValidUtf8(SpellAll(cs))
  {
    hide Utf8Width, Spell;
    if cs != [] {
      var rest := SpellAll(cs[1..]);
      SpelledValid(cs[1..]);
      SpelledWidth(cs[0], rest);
      assert SpellAll(cs)[|Spell(cs[0])|..] == rest;
    }
  }

  lemma {:induction false} Spelling(s: seq<byte>) returns (cs: seq<Scalar>)
    requires ValidUtf8(s)
    ensures SpellAll(cs) == s
  {
    hide Utf8Width, Spell;
    cs := [];
    if s != [] {
      var n := Utf8Width(s);
      var c := FirstCharacter(s);
      var rest := Spelling(s[n..]);
      cs := [c] + rest;
      assert cs[1..] == rest && s == s[..n] + s[n..];
    }
  }

  /** A string is accepted exactly when it encodes a sequence of characters. */
  lemma {:induction false} AcceptedStrings(s: seq<byte>)
    ensures ValidUtf8(s) <==> exists cs :: SpellAll(cs) == s
  {
    hide ValidUtf8, SpellAll;
    if ValidUtf8(s) { var cs := Spelling(s); }
    if cs :| SpellAll(cs) == s { SpelledValid(cs); }
  }
}
