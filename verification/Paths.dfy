/** Strings as UTF-8 bytes, and the path rules over them (src/validate.rs). */
module Paths {
  import opened Varint

  const SLASH: byte := 47
  const BACKSLASH: byte := 92
  const DOT: byte := 46

  /** Well-formed UTF-8, byte by byte as in the grammar of section 4 of RFC 3629. */
  predicate ValidUtf8(s: seq<byte>)
  {
    if s == [] then true
    else
      var n := Utf8Width(s);
      n > 0 && ValidUtf8(s[n..])
  }

  predicate Tail(s: seq<byte>, i: nat, lo: byte, hi: byte) { i < |s| && lo <= s[i] <= hi }

  /** The width of the first character, or 0 when it is not well formed. */
  function Utf8Width(s: seq<byte>): (n: nat)
    requires s != []
    ensures n <= |s|
  {
    var c := s[0];
    if c < 0x80 then 1
    else if 0xC2 <= c <= 0xDF && Tail(s, 1, 0x80, 0xBF) then 2
    else if 0xE0 <= c <= 0xEF
         && Tail(s, 1, if c == 0xE0 then 0xA0 else 0x80, if c == 0xED then 0x9F else 0xBF)
         && Tail(s, 2, 0x80, 0xBF) then 3
    else if 0xF0 <= c <= 0xF4
         && Tail(s, 1, if c == 0xF0 then 0x90 else 0x80, if c == 0xF4 then 0x8F else 0xBF)
         && Tail(s, 2, 0x80, 0xBF) && Tail(s, 3, 0x80, 0xBF) then 4
    else 0
  }

  type Utf8 = s: seq<byte> | ValidUtf8(s) witness []

  /** The length of the first segment: up to the first separator. */
  function SegmentEnd(p: seq<byte>): (k: nat)
    ensures k <= |p| && (k < |p| ==> p[k] == SLASH) && SLASH !in p[..k]
  {
    if p == [] || p[0] == SLASH then 0 else 1 + SegmentEnd(p[1..])
  }

  function Split(p: seq<byte>): (segments: seq<seq<byte>>)
    ensures |segments| > 0 && segments[0] == p[..SegmentEnd(p)]
  {
    var k := SegmentEnd(p);
    if k == |p| then [p] else [p[..k]] + Split(p[k + 1..])
  }

  predicate IsSegment(s: seq<byte>) { s != [] && s != [DOT] && s != [DOT, DOT] }

  predicate IsCanonicalPath(p: seq<byte>)
  {
    && p != [] && p[0] != SLASH && p[|p| - 1] != SLASH
    && BACKSLASH !in p && 0 !in p
    && forall i :: 0 <= i < |Split(p)| ==> IsSegment(Split(p)[i])
  }

  predicate IsTreeName(n: seq<byte>)
  {
    n != [] && SLASH !in n && BACKSLASH !in n && 0 !in n && n != [DOT] && n != [DOT, DOT]
  }

  /** Byte-wise order, as strings and identities are compared. */
  predicate Below(s: seq<byte>, t: seq<byte>)
  {
    if t == [] then false
    else if s == [] then true
    else s[0] < t[0] || (s[0] == t[0] && Below(s[1..], t[1..]))
  }

  /** The strings agree up to a place where the first ends or has the smaller byte. */
  ghost predicate SmallerAt(s: seq<byte>, t: seq<byte>, k: int)
  {
    0 <= k <= |s| && k < |t| && s[..k] == t[..k] && (k == |s| || s[k] < t[k])
  }

  lemma {:induction false} BelowExactly(s: seq<byte>, t: seq<byte>)
    ensures Below(s, t) <==> exists k :: SmallerAt(s, t, k)
  {
    forall k | SmallerAt(s, t, k) && k > 0 ensures s[0] == t[0] { assert s[..k][0] == t[..k][0]; }
    if s == [] || t == [] || s[0] != t[0] {
      assert t != [] && (s == [] || s[0] < t[0]) ==> SmallerAt(s, t, 0);
    } else {
      BelowExactly(s[1..], t[1..]);
      forall k | 0 <= k <= |s| - 1 ensures SmallerAt(s[1..], t[1..], k) <==> SmallerAt(s, t, k + 1) {
        SmallerLater(s, t, k);
      }
      if k :| SmallerAt(s, t, k) { assert SmallerAt(s[1..], t[1..], k - 1); }
    }
  }

  lemma {:induction false} SmallerLater(s: seq<byte>, t: seq<byte>, k: nat)
    requires s != [] && t != [] && s[0] == t[0] && k < |s|
    ensures SmallerAt(s[1..], t[1..], k) <==> SmallerAt(s, t, k + 1)
  {
    if k < |t| - 1 {
      assert s[..k + 1] == [s[0]] + s[1..][..k] && t[..k + 1] == [t[0]] + t[1..][..k];
      assert s[1..][..k] == s[..k + 1][1..] && t[1..][..k] == t[..k + 1][1..];
    }
  }

  lemma {:induction false} BelowTotal(s: seq<byte>, t: seq<byte>)
    ensures Below(s, t) || s == t || Below(t, s)
    ensures !(Below(s, t) && Below(t, s)) && (s == t ==> !Below(s, t))
  {
    if s != [] && t != [] {
      BelowTotal(s[1..], t[1..]);
      if s[0] == t[0] && s[1..] == t[1..] {
        assert s == [s[0]] + s[1..] && t == [t[0]] + t[1..];
      }
    }
  }

  lemma {:induction false} BelowTransitive(s: seq<byte>, t: seq<byte>, u: seq<byte>)
    requires Below(s, t) && Below(t, u)
    ensures Below(s, u)
  {
    if s != [] {
      if s[0] == t[0] == u[0] { BelowTransitive(s[1..], t[1..], u[1..]); }
    }
  }

  // ---- Sorted sets ----

  predicate Ascending(names: seq<seq<byte>>)
  {
    forall i, j :: 0 <= i < j < |names| ==> Below(names[i], names[j])
  }

  predicate IsLeast(names: set<seq<byte>>, least: seq<byte>)
  {
    least in names && forall p :: p in names && p != least ==> Below(least, p)
  }

  lemma {:induction false} HasLeast(names: set<seq<byte>>)
    requires names != {}
    ensures exists least :: IsLeast(names, least)
  {
    var p :| p in names;
    if names == {p} {
      assert IsLeast(names, p);
    } else {
      HasLeast(names - {p});
      var q :| IsLeast(names - {p}, q);
      BelowTotal(p, q);
      if Below(p, q) {
        forall r | r in names && r != p ensures Below(p, r) { if r != q { BelowTransitive(p, q, r); } }
        assert IsLeast(names, p);
      } else {
        assert IsLeast(names, q);
      }
    }
  }

  /** A set of strings in byte order. */
  ghost function Sorted(names: set<seq<byte>>): (sorted: seq<seq<byte>>)
    ensures forall p :: p in sorted <==> p in names
    ensures Ascending(sorted)
  {
    if names == {} then []
    else
      HasLeast(names);
      var least :| IsLeast(names, least);
      var rest := Sorted(names - {least});
      assert forall i :: 0 <= i < |rest| ==> rest[i] in names - {least};
      [least] + rest
  }

  lemma {:induction false} SortedFrom(names: set<seq<byte>>, least: seq<byte>)
    requires IsLeast(names, least)
    ensures Sorted(names) == [least] + Sorted(names - {least})
  {
    forall other | IsLeast(names, other) ensures other == least { BelowTotal(other, least); }
  }
}
