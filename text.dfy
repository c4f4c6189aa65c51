/**
 The JavaScript string built-ins the editor relies on, written out as functions on
 `seq<char>`: `trim`, `split` on one character, `split(token)[0]`/`includes`, and
 the decimal rendering of a number inside a template literal.
 */
module Text {
  import opened Wrappers

  /** The code points that `String.prototype.trim` removes and that the regular
      expression class `\s` matches: WhiteSpace and LineTerminator. */
  predicate IsWhitespace(c: char) {
    var n := c as int;
    n == 0x09 || n == 0x0A || n == 0x0B || n == 0x0C || n == 0x0D || n == 0x20 ||
    n == 0xA0 || n == 0x1680 || (0x2000 <= n <= 0x200A) || n == 0x2028 || n == 0x2029 ||
    n == 0x202F || n == 0x205F || n == 0x3000 || n == 0xFEFF
  }

  predicate AllWhitespace(s: string) {
    forall i :: 0 <= i < |s| ==> IsWhitespace(s[i])
  }

  lemma AllWhitespaceAppend(a: string, b: string)
    requires AllWhitespace(a) && AllWhitespace(b)
    ensures AllWhitespace(a + b)
  {
    forall i | 0 <= i < |a + b|
      ensures IsWhitespace((a + b)[i])
    {
      if i < |a| {
        assert (a + b)[i] == a[i];
      } else {
        assert (a + b)[i] == b[i - |a|];
      }
    }
  }

  predicate StartsWith(s: string, prefix: string) {
    |prefix| <= |s| && s[..|prefix|] == prefix
  }

  predicate EndsWith(s: string, suffix: string) {
    |suffix| <= |s| && s[|s| - |suffix|..] == suffix
  }

  // ---------------------------------------------------------------------------
  // trim
  // ---------------------------------------------------------------------------

  /** `s` without its leading whitespace: a suffix of `s` that starts with a
      non-whitespace character, everything before it being whitespace. */
  function TrimStart(s: string): (r: string)
    ensures |r| <= |s| && r == s[|s| - |r|..]
    ensures AllWhitespace(s[..|s| - |r|])
    ensures r == [] || !IsWhitespace(r[0])
  {
    if s == [] || !IsWhitespace(s[0]) then s
    else
      var r := TrimStart(s[1..]);
      LeadingStep(s, r);
      r
  }

  /** One more leading whitespace character in front of what TrimStart keeps. */
  lemma LeadingStep(s: string, r: string)
    requires s != [] && IsWhitespace(s[0])
    requires |r| <= |s| - 1 && r == s[1..][|s| - 1 - |r|..]
    requires AllWhitespace(s[1..][..|s| - 1 - |r|])
    ensures r == s[|s| - |r|..] && AllWhitespace(s[..|s| - |r|])
  {
    assert s[..|s| - |r|] == [s[0]] + s[1..][..|s| - 1 - |r|];
    AllWhitespaceAppend([s[0]], s[1..][..|s| - 1 - |r|]);
  }

  /** `s` without its trailing whitespace: a prefix of `s` that ends with a
      non-whitespace character, everything after it being whitespace. */
  function TrimEnd(s: string): (r: string)
    ensures |r| <= |s| && r == s[..|r|]
    ensures AllWhitespace(s[|r|..])
    ensures r == [] || !IsWhitespace(r[|r| - 1])
  {
    if s == [] || !IsWhitespace(s[|s| - 1]) then s
    else
      var r := TrimEnd(s[..|s| - 1]);
      TrailingStep(s, r);
      r
  }

  /** One more trailing whitespace character after what TrimEnd keeps. */
  lemma TrailingStep(s: string, r: string)
    requires s != [] && IsWhitespace(s[|s| - 1])
    requires |r| <= |s| - 1 && r == s[..|s| - 1][..|r|]
    requires AllWhitespace(s[..|s| - 1][|r|..])
    ensures r == s[..|r|] && AllWhitespace(s[|r|..])
  {
    assert s[|r|..] == s[..|s| - 1][|r|..] + [s[|s| - 1]];
    AllWhitespaceAppend(s[..|s| - 1][|r|..], [s[|s| - 1]]);
  }

  /** `String.prototype.trim`. */
  function Trim(s: string): (r: string)
    ensures |r| <= |s|
    ensures r == [] || (!IsWhitespace(r[0]) && !IsWhitespace(r[|r| - 1]))
  {
    var t := TrimStart(s);
    var r := TrimEnd(t);
    assert r != [] ==> r[0] == t[0];
    r
  }

  /** `s.trim()` is the empty string (falsy). */
  predicate IsBlank(s: string) {
    Trim(s) == []
  }

  /** Leading whitespace in front of a string that starts with a non-whitespace
      character is exactly what TrimStart removes. */
  lemma TrimStartExact(w: string, x: string)
    requires AllWhitespace(w)
    requires x == [] || !IsWhitespace(x[0])
    ensures TrimStart(w + x) == x
  {
    var s := w + x;
    var r := TrimStart(s);
    if x != [] {
      assert s[|w|] == x[0];
    }
    if |r| > 0 {
      assert r[0] == s[|s| - |r|];
    }
    assert |r| == |x|;
  }

  lemma TrimEndExact(x: string, w: string)
    requires AllWhitespace(w)
    requires x == [] || !IsWhitespace(x[|x| - 1])
    ensures TrimEnd(x + w) == x
  {
    var s := x + w;
    var r := TrimEnd(s);
    if x != [] {
      assert s[|x| - 1] == x[|x| - 1];
    }
    if |r| > 0 {
      assert r[|r| - 1] == s[|r| - 1];
    }
    assert |r| == |x|;
  }

  /** Trimming a text surrounded by whitespace gives back the text: `trim` is
      the inverse of padding with whitespace. */
  lemma {:induction false} TrimPadded(w1: string, x: string, w2: string)
    requires AllWhitespace(w1) && AllWhitespace(w2)
    requires x == [] || (!IsWhitespace(x[0]) && !IsWhitespace(x[|x| - 1]))
    ensures Trim(w1 + x + w2) == x
  {
    if x == [] {
      assert w1 + x + w2 == (w1 + w2) + [];
      TrimStartExact(w1 + w2, []);
    } else {
      assert w1 + x + w2 == w1 + (x + w2);
      TrimStartExact(w1, x + w2);
      TrimEndExact(x, w2);
    }
  }

  /** `trim` is idempotent. */
  lemma TrimIdempotent(s: string)
    ensures Trim(Trim(s)) == Trim(s)
  {
    var r := Trim(s);
    var empty: string := [];
    assert empty + r + empty == r;
    assert AllWhitespace(empty);
    TrimPadded(empty, r, empty);
  }

  /** A string is blank exactly when every character of it is whitespace. */
  lemma BlankIffAllWhitespace(s: string)
    ensures IsBlank(s) <==> AllWhitespace(s)
  {
    var t := TrimStart(s);
    if AllWhitespace(s) {
      assert s + [] == s;
      TrimStartExact(s, []);
    }
    if IsBlank(s) {
      assert TrimEnd(t) == [];
      assert s == s[..|s| - |t|] + t;
    }
  }

  /** `s.trim()` is a slice of `s`, at some offset `k`. */
  lemma TrimIsSlice(s: string) returns (k: nat)
    ensures k + |Trim(s)| <= |s| && Trim(s) == s[k..k + |Trim(s)|]
  {
    var t := TrimStart(s);
    k := |s| - |t|;
    assert Trim(s) == TrimEnd(t);
    PrefixOfSuffix(s, k, |TrimEnd(t)|);
  }

  lemma PrefixOfSuffix(s: string, k: nat, n: nat)
    requires k + n <= |s|
    ensures s[k..][..n] == s[k..k + n]
  {
  }

  // ---------------------------------------------------------------------------
  // split on one character
  // ---------------------------------------------------------------------------

  /** `s.split(sep)` for a one-character separator: the pieces between the
      separators, always at least one (`"".split(sep)` is `[""]`). */
  function Split(s: string, sep: char): (r: seq<string>)
    ensures |r| >= 1
  {
    if s == [] then [[]]
    else
      var rest := Split(s[1..], sep);
      if s[0] == sep then [[]] + rest
      else [[s[0]] + rest[0]] + rest[1..]
  }

  /** No piece of a split holds the separator. */
  lemma {:induction false} SplitPiecesFree(s: string, sep: char)
    ensures forall k :: 0 <= k < |Split(s, sep)| ==> sep !in Split(s, sep)[k]
  {
    if s != [] {
      SplitPiecesFree(s[1..], sep);
      var rest := Split(s[1..], sep);
      if s[0] != sep {
        assert sep !in rest[0];
        assert sep !in [s[0]] + rest[0];
      }
    }
  }

  /** `pieces.join(sep)`. */
  function Join(pieces: seq<string>, sep: char): string
    requires |pieces| >= 1
  {
    if |pieces| == 1 then pieces[0] else pieces[0] + [sep] + Join(pieces[1..], sep)
  }

  function Last<T>(s: seq<T>): T
    requires |s| >= 1
  {
    s[|s| - 1]
  }

  /** Joining the pieces of a split gives back the string. */
  lemma {:induction false} JoinSplit(s: string, sep: char)
    ensures Join(Split(s, sep), sep) == s
  {
    if s != [] {
      JoinSplit(s[1..], sep);
      var rest := Split(s[1..], sep);
      if s[0] != sep {
        JoinGrowHead(s[0], rest, sep);
      } else {
        JoinEmptyHead(rest, sep);
      }
      assert s == [s[0]] + s[1..];
    }
  }

  lemma JoinGrowHead(c: char, pieces: seq<string>, sep: char)
    requires |pieces| >= 1
    ensures Join([[c] + pieces[0]] + pieces[1..], sep) == [c] + Join(pieces, sep)
  {
    var grown := [[c] + pieces[0]] + pieces[1..];
    assert grown[1..] == pieces[1..];
  }

  lemma JoinEmptyHead(pieces: seq<string>, sep: char)
    requires |pieces| >= 1
    ensures Join([[]] + pieces, sep) == [sep] + Join(pieces, sep)
  {
    assert ([[]] + pieces)[1..] == pieces;
  }

  /** Splitting a join of separator-free pieces gives back the pieces. */
  lemma {:induction false} SplitJoin(pieces: seq<string>, sep: char)
    requires |pieces| >= 1
    requires forall k :: 0 <= k < |pieces| ==> sep !in pieces[k]
    ensures Split(Join(pieces, sep), sep) == pieces
  {
    SplitFree(pieces[0], sep);
    if |pieces| > 1 {
      var tail := pieces[1..];
      var j := Join(tail, sep);
      SplitJoin(tail, sep);
      SplitAfterSep(j, sep);
      SplitAppend(pieces[0], [sep] + j, sep);
      FuseEmptyHead(pieces[0], tail);
      assert Join(pieces, sep) == pieces[0] + ([sep] + j);
    }
  }

  lemma SplitAfterSep(j: string, sep: char)
    ensures Split([sep] + j, sep) == [[]] + Split(j, sep)
  {
    assert ([sep] + j)[1..] == j;
  }

  lemma FuseEmptyHead(p: string, tail: seq<string>)
    requires |tail| >= 1
    ensures Fuse([p], [[]] + tail) == [p] + tail
  {
    assert p + [] == p;
    assert ([[]] + tail)[1..] == tail;
  }

  /** A string without the separator splits into itself. */
  lemma {:induction false} SplitFree(s: string, sep: char)
    requires sep !in s
    ensures Split(s, sep) == [s]
  {
    if s != [] {
      assert sep !in s[1..];
      SplitFree(s[1..], sep);
      assert [s[0]] + s[1..] == s;
    }
  }

  /** The pieces of `a + b` given the pieces of `a` and of `b`: the last piece of
      `a` and the first piece of `b` fuse, every other piece is kept. */
  function Fuse(sa: seq<string>, sb: seq<string>): seq<string>
    requires |sa| >= 1 && |sb| >= 1
  {
    sa[..|sa| - 1] + [Last(sa) + sb[0]] + sb[1..]
  }

  lemma FuseCons(e: string, rest: seq<string>, sb: seq<string>)
    requires |rest| >= 1 && |sb| >= 1
    ensures Fuse([e] + rest, sb) == [e] + Fuse(rest, sb)
  {
    assert ([e] + rest)[..|rest|] == [e] + rest[..|rest| - 1];
  }

  lemma FuseHead(c: char, rest: seq<string>, sb: seq<string>)
    requires |rest| >= 1 && |sb| >= 1
    ensures var f := Fuse(rest, sb);
      Fuse([[c] + rest[0]] + rest[1..], sb) == [[c] + f[0]] + f[1..]
  {
    if |rest| > 1 {
      FuseCons(rest[0], rest[1..], sb);
      FuseCons([c] + rest[0], rest[1..], sb);
      assert rest == [rest[0]] + rest[1..];
    } else {
      assert [c] + rest[0] + sb[0] == [c] + (rest[0] + sb[0]);
    }
  }

  lemma FuseSnoc(init: seq<string>, b: string, sb: seq<string>)
    requires |sb| >= 1
    ensures Fuse(init + [b], sb) == init + Fuse([b], sb)
  {
    assert (init + [b])[..|init|] == init;
  }

  /** Splitting a concatenation. */
  lemma {:induction false} SplitAppend(a: string, b: string, sep: char)
    ensures Split(a + b, sep) == Fuse(Split(a, sep), Split(b, sep))
  {
    var sb := Split(b, sep);
    if a == [] {
      assert a + b == b;
      assert [] + sb[0] == sb[0];
      assert sb == [sb[0]] + sb[1..];
    } else {
      SplitAppend(a[1..], b, sep);
      var rest := Split(a[1..], sep);
      var x := Split(a[1..] + b, sep);
      assert (a + b)[1..] == a[1..] + b;
      assert (a + b)[0] == a[0];
      if a[0] == sep {
        assert Split(a + b, sep) == [[]] + x;
        FuseCons([], rest, sb);
      } else {
        assert Split(a + b, sep) == [[a[0]] + x[0]] + x[1..];
        FuseHead(a[0], rest, sb);
      }
    }
  }

  // ---------------------------------------------------------------------------
  // concatenation of a sequence of strings
  // ---------------------------------------------------------------------------

  /** The strings of `parts` one after the other (built from the back, as a loop
      that appends does). */
  function Concat(parts: seq<string>): string {
    if parts == [] then [] else Concat(parts[..|parts| - 1]) + parts[|parts| - 1]
  }

  lemma ConcatSnoc(parts: seq<string>, k: nat)
    requires k < |parts|
    ensures Concat(parts[..k + 1]) == Concat(parts[..k]) + parts[k]
  {
    assert parts[..k + 1][..k] == parts[..k];
  }

  // ---------------------------------------------------------------------------
  // search
  // ---------------------------------------------------------------------------

  predicate OccursAt(s: string, t: string, i: nat) {
    i + |t| <= |s| && s[i..i + |t|] == t
  }

  /** The first index at or after `from` where `t` occurs in `s`. */
  function IndexFrom(s: string, t: string, from: nat): (r: Option<nat>)
    requires from <= |s|
    ensures r.Some? ==> from <= r.value && OccursAt(s, t, r.value)
    ensures forall j: nat :: from <= j && (r.None? || j < r.value) ==> !OccursAt(s, t, j)
    decreases |s| - from
  {
    if OccursAt(s, t, from) then Some(from)
    else if from == |s| then None
    else IndexFrom(s, t, from + 1)
  }

  /** `s.indexOf(t)`, with `-1` as None. */
  function IndexOf(s: string, t: string): (r: Option<nat>)
    ensures r.Some? ==> OccursAt(s, t, r.value)
    ensures forall j: nat :: (r.None? || j < r.value) ==> !OccursAt(s, t, j)
  {
    IndexFrom(s, t, 0)
  }

  /** A slice of a string in which `t` does not occur has no occurrence of `t`
      either. */
  lemma SliceKeepsAbsence(s: string, t: string, a: nat, b: nat)
    requires a <= b <= |s|
    requires forall j: nat :: !OccursAt(s, t, j)
    ensures forall j: nat :: !OccursAt(s[a..b], t, j)
  {
    forall j: nat | OccursAt(s[a..b], t, j) ensures false {
      var u := s[a..b];
      assert j + |t| <= |u|;
      var v, w := u[j..j + |t|], s[a + j..a + j + |t|];
      assert forall k :: 0 <= k < |t| ==> v[k] == w[k];
      assert v == w;
      assert OccursAt(s, t, a + j);
    }
  }

  /** The same, for a string `u` known to sit at offset `a` of `s`. */
  lemma InfixKeepsAbsence(s: string, u: string, t: string, a: nat)
    requires a + |u| <= |s| && u == s[a..a + |u|]
    requires forall j: nat :: !OccursAt(s, t, j)
    ensures forall j: nat :: !OccursAt(u, t, j)
  {
    SliceKeepsAbsence(s, t, a, a + |u|);
  }

  // ---------------------------------------------------------------------------
  // numbers in template literals
  // ---------------------------------------------------------------------------

  function DigitChar(d: nat): (c: char)
    requires d < 10
  {
    ('0' as int + d) as char
  }

  /** The decimal rendering of `n`, as `${n}` produces it for a non-negative
      integer: digits only, no leading zero except for 0 itself. */
  function NatToString(n: nat): (r: string)
    ensures |r| >= 1 && forall i :: 0 <= i < |r| ==> '0' <= r[i] <= '9'
    ensures r[0] == '0' ==> n == 0
  {
    if n < 10 then [DigitChar(n)] else NatToString(n / 10) + [DigitChar(n % 10)]
  }

  /** The number a string of decimal digits denotes. */
  function DigitsValue(s: string): nat
    requires forall i :: 0 <= i < |s| ==> '0' <= s[i] <= '9'
  {
    if s == [] then 0 else DigitsValue(s[..|s| - 1]) * 10 + (s[|s| - 1] as int - '0' as int)
  }

  /** Reading the decimal rendering back gives the number. */
  lemma {:induction false} NatToStringValue(n: nat)
    ensures DigitsValue(NatToString(n)) == n
  {
    var r := NatToString(n);
    if n < 10 {
      assert r[..0] == [];
    } else {
      var a := NatToString(n / 10);
      NatToStringValue(n / 10);
      assert r == a + [DigitChar(n % 10)];
      assert r[..|r| - 1] == a;
      assert DigitsValue(r) == DigitsValue(a) * 10 + n % 10;
    }
  }

  /** Distinct numbers render to distinct strings. */
  lemma NatToStringInjective(m: nat, n: nat)
    requires NatToString(m) == NatToString(n)
    ensures m == n
  {
    NatToStringValue(m);
    NatToStringValue(n);
  }
}
