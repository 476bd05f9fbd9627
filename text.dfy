/**
 * The Python string built-ins the controller relies on, restated over `seq<char>`:
 * `str.strip()`, `p in s`, `s.startswith(p)` (Dafny's prefix `p <= s`), `s.split(sep)`,
 * `s.replace(old, new)`, `int(s)` and `str(n)`.
 */
module Text {
  import opened Wrappers

  // ---------------------------------------------------------------------------
  // Characters

  /** `str.isspace()` on the ASCII range: space, \t \n \v \f \r and the separators \x1c-\x1f. */
  predicate IsSpace(c: char) {
    c == ' ' || ('\t' <= c <= '\r') || ('\U{1C}' <= c <= '\U{1F}')
  }

  /** `ord(c) < 128` */
  predicate IsAscii(c: char) {
    c as int < 128
  }

  predicate AllAscii(s: string) {
    forall i :: 0 <= i < |s| ==> IsAscii(s[i])
  }

  predicate IsDigit(c: char) {
    '0' <= c <= '9'
  }

  predicate AllDigits(s: string) {
    forall i :: 0 <= i < |s| ==> IsDigit(s[i])
  }

  function DigitValue(c: char): (d: nat)
    requires IsDigit(c)
    ensures d < 10
  {
    c as int - '0' as int
  }

  function DigitChar(d: nat): (c: char)
    requires d < 10
    ensures IsDigit(c) && DigitValue(c) == d
  {
    ('0' as int + d) as char
  }

  // ---------------------------------------------------------------------------
  // str.strip()

  function TrimStart(s: string): (r: string)
    ensures |r| <= |s| && (r == [] || !IsSpace(r[0]))
    decreases |s|
  {
    if s != [] && IsSpace(s[0]) then TrimStart(s[1..]) else s
  }

  /** Only leading whitespace is removed. */
  lemma {:induction false} TrimStartRemoves(s: string)
    ensures TrimStart(s) == s[|s| - |TrimStart(s)|..]
    ensures forall i :: 0 <= i < |s| - |TrimStart(s)| ==> IsSpace(s[i])
    decreases |s|
  {
    if s != [] && IsSpace(s[0]) {
      TrimStartRemoves(s[1..]);
      forall i | 1 <= i < |s| - |TrimStart(s)| ensures IsSpace(s[i]) {
        assert s[i] == s[1..][i - 1];
      }
    }
  }

  function TrimEnd(s: string): (r: string)
    ensures |r| <= |s| && (r == [] || !IsSpace(r[|r| - 1]))
    ensures r == [] || r[0] == s[0]
    decreases |s|
  {
    if s != [] && IsSpace(s[|s| - 1]) then TrimEnd(s[..|s| - 1]) else s
  }

  /** Only trailing whitespace is removed. */
  lemma {:induction false} TrimEndRemoves(s: string)
    ensures TrimEnd(s) == s[..|TrimEnd(s)|]
    ensures forall i :: |TrimEnd(s)| <= i < |s| ==> IsSpace(s[i])
    decreases |s|
  {
    if s != [] && IsSpace(s[|s| - 1]) {
      TrimEndRemoves(s[..|s| - 1]);
    }
  }

  /** Neither starts nor ends with whitespace. */
  predicate Unpadded(s: string) {
    s == [] || (!IsSpace(s[0]) && !IsSpace(s[|s| - 1]))
  }

  /** `s.strip()`: `s` without its leading and trailing whitespace. */
  function Strip(s: string): (r: string)
    ensures |r| <= |s| && Unpadded(r)
  {
    TrimEnd(TrimStart(s))
  }

  /** The strip is the window of `s` at offset `o`; everything outside the window is whitespace. */
  lemma StripWindow(s: string) returns (o: nat)
    ensures o + |Strip(s)| <= |s| && Strip(s) == s[o..o + |Strip(s)|]
    ensures forall i :: 0 <= i < o ==> IsSpace(s[i])
    ensures forall i :: o + |Strip(s)| <= i < |s| ==> IsSpace(s[i])
  {
    var a := TrimStart(s);
    o := |s| - |a|;
    TrimStartRemoves(s);
    TrimEndRemoves(a);
    Window(s, a, TrimEnd(a));
  }

  /** A prefix `r` of a suffix `a` of `s` is a window of `s`; what lies beyond `r` in `a` lies beyond it in `s`. */
  lemma Window(s: string, a: string, r: string)
    requires |a| <= |s| && a == s[|s| - |a|..] && |r| <= |a| && r == a[..|r|]
    requires forall i :: |r| <= i < |a| ==> IsSpace(a[i])
    ensures r == s[|s| - |a|..|s| - |a| + |r|]
    ensures forall i :: |s| - |a| + |r| <= i < |s| ==> IsSpace(s[i])
  {
    var o := |s| - |a|;
    forall i | o + |r| <= i < |s| ensures IsSpace(s[i]) {
      assert s[i] == a[i - o];
    }
  }

  /** A string that neither starts nor ends with whitespace is its own strip. */
  lemma StripUnpadded(s: string)
    requires Unpadded(s)
    ensures Strip(s) == s
  {
  }

  /** Whitespace on either side of a word that starts and ends with a non-space is stripped away. */
  lemma StripPadded(pad1: string, t: string, pad2: string)
    requires t != [] && Unpadded(t)
    requires forall i :: 0 <= i < |pad1| ==> IsSpace(pad1[i])
    requires forall i :: 0 <= i < |pad2| ==> IsSpace(pad2[i])
    ensures Strip(pad1 + t + pad2) == t
  {
    var s := pad1 + t + pad2;
    var a, b := |pad1|, |pad1| + |t| - 1;
    assert s[a] == t[0] && s[b] == t[|t| - 1];
    var o := StripWindow(s);
    var r := Strip(s);
    assert o <= a < o + |r| && o <= b < o + |r|;
    assert r[0] == s[o] && r[|r| - 1] == s[o + |r| - 1];
    assert s[a..b + 1] == t;
  }

  /** A non-whitespace character survives the strip. */
  lemma StripKeeps(s: string, i: nat)
    requires i < |s| && !IsSpace(s[i])
    ensures s[i] in Strip(s)
  {
    var o := StripWindow(s);
    assert o <= i < o + |Strip(s)|;
    assert Strip(s)[i - o] == s[i];
  }

  lemma StripIdempotent(s: string)
    ensures Strip(Strip(s)) == Strip(s)
  {
    StripUnpadded(Strip(s));
  }

  // ---------------------------------------------------------------------------
  // `p in s`

  /** `p in s`: `p` occurs somewhere in `s` (the empty string occurs everywhere). */
  predicate Contains(s: string, p: string)
    decreases |s|
  {
    p <= s || (s != [] && Contains(s[1..], p))
  }

  /** An occurrence at offset `k` is an occurrence. */
  lemma {:induction false} ContainsAt(s: string, p: string, k: nat)
    requires k + |p| <= |s| && s[k..k + |p|] == p
    ensures Contains(s, p)
    decreases k
  {
    if k == 0 {
      assert p <= s;
    } else {
      assert s[1..][k - 1..k - 1 + |p|] == p;
      ContainsAt(s[1..], p, k - 1);
    }
  }

  /** Every occurrence has an offset. */
  lemma {:induction false} ContainsOffset(s: string, p: string) returns (k: nat)
    requires Contains(s, p)
    ensures k + |p| <= |s| && s[k..k + |p|] == p
    decreases |s|
  {
    if p <= s {
      k := 0;
    } else {
      var j := ContainsOffset(s[1..], p);
      k := j + 1;
      assert s[k..k + |p|] == s[1..][j..j + |p|];
    }
  }

  /** Whoever contains `a + p + b` contains `p`. */
  lemma ContainsInner(s: string, a: string, p: string, b: string)
    requires Contains(s, a + p + b)
    ensures Contains(s, p)
  {
    var w := a + p + b;
    var k := ContainsOffset(s, w);
    forall i | 0 <= i < |p| ensures s[k + |a| + i] == p[i] {
      assert s[k + |a| + i] == s[k..k + |w|][|a| + i] == w[|a| + i];
    }
    assert s[k + |a|..k + |a| + |p|] == p;
    ContainsAt(s, p, k + |a|);
  }

  /** Every character of an occurrence is a character of `s`. */
  lemma ContainsChar(s: string, p: string, i: nat)
    ensures Contains(s, p) && i < |p| ==> p[i] in s
  {
    if Contains(s, p) && i < |p| {
      var k := ContainsOffset(s, p);
      assert s[k + i] == p[i];
    }
  }

  /** An ASCII string contains only ASCII strings. */
  lemma ContainsAscii(s: string, p: string)
    ensures AllAscii(s) && Contains(s, p) ==> AllAscii(p)
  {
    if AllAscii(s) && Contains(s, p) {
      var k := ContainsOffset(s, p);
      forall i | 0 <= i < |p| ensures IsAscii(p[i]) {
        assert p[i] == s[k + i];
      }
    }
  }

  // ---------------------------------------------------------------------------
  // s.split(sep) and its inverse sep.join(parts)

  /** `s.split(sep)` for a one-character separator: the maximal separator-free pieces, empty ones included. */
  function Split(s: string, sep: char): (parts: seq<string>)
    ensures |parts| >= 1
    ensures forall k :: 0 <= k < |parts| ==> sep !in parts[k]
    decreases |s|
  {
    if s == [] then [""]
    else
      var rest := Split(s[1..], sep);
      if s[0] == sep then [""] + rest
      else [[s[0]] + rest[0]] + rest[1..]
  }

  /** `sep.join(parts)` */
  function Join(parts: seq<string>, sep: char): string
    decreases |parts|
  {
    if parts == [] then ""
    else if |parts| == 1 then parts[0]
    else parts[0] + [sep] + Join(parts[1..], sep)
  }

  /** Splitting and joining again gives back the text. */
  lemma {:induction false} JoinSplit(s: string, sep: char)
    ensures Join(Split(s, sep), sep) == s
    decreases |s|
  {
    if s != [] {
      var rest := Split(s[1..], sep);
      JoinSplit(s[1..], sep);
      if s[0] == sep {
        assert s == [sep] + s[1..];
      } else if |rest| == 1 {
        assert s == [s[0]] + s[1..];
      } else {
        assert Join(rest, sep) == rest[0] + [sep] + Join(rest[1..], sep);
        assert s == [s[0]] + s[1..];
      }
    }
  }

  /** Joining separator-free pieces and splitting again gives back the pieces. */
  lemma {:induction false} SplitJoin(parts: seq<string>, sep: char)
    requires |parts| >= 1
    requires forall k :: 0 <= k < |parts| ==> sep !in parts[k]
    ensures Split(Join(parts, sep), sep) == parts
    decreases |parts|, |parts[0]|
  {
    var p := parts[0];
    if p != [] {
      var tail := [p[1..]] + parts[1..];
      SplitJoin(tail, sep);
      if |parts| == 1 {
        assert Join(parts, sep) == p;
        assert Join(tail, sep) == p[1..];
      } else {
        assert Join(parts, sep) == p + [sep] + Join(parts[1..], sep);
        assert Join(tail, sep) == p[1..] + [sep] + Join(parts[1..], sep);
        assert Join(parts, sep)[1..] == Join(tail, sep);
      }
      assert Join(parts, sep)[0] == p[0];
      assert [p[0]] + p[1..] == p;
      assert [p] + tail[1..] == parts;
    } else if |parts| > 1 {
      SplitJoin(parts[1..], sep);
      assert Join(parts, sep) == [sep] + Join(parts[1..], sep);
      assert Join(parts, sep)[1..] == Join(parts[1..], sep);
    }
  }

  /** The first piece ends at the first separator. */
  lemma SplitAt(a: string, b: string, sep: char)
    requires sep !in a
    ensures Split(a + [sep] + b, sep) == [a] + Split(b, sep)
  {
    SplitJoin([a] + Split(b, sep), sep);
    JoinSplit(b, sep);
    assert Join([a] + Split(b, sep), sep) == a + [sep] + Join(Split(b, sep), sep);
  }

  /** A separator-free text followed by nothing or a separator is the first piece. */
  lemma SplitHead(a: string, tail: string, sep: char)
    requires sep !in a
    requires tail == [] || tail[0] == sep
    ensures Split(a + tail, sep)[0] == a
  {
    if tail == [] {
      SplitJoin([a], sep);
      assert Join([a], sep) == a == a + tail;
    } else {
      assert a + tail == a + [sep] + tail[1..];
      SplitAt(a, tail[1..], sep);
    }
  }

  lemma {:induction false} SplitAscii(s: string, sep: char)
    requires AllAscii(s)
    ensures forall k :: 0 <= k < |Split(s, sep)| ==> AllAscii(Split(s, sep)[k])
    decreases |s|
  {
    if s != [] {
      SplitAscii(s[1..], sep);
    }
  }

  // ---------------------------------------------------------------------------
  // s.replace(pat, rep)

  /** `s.replace(pat, rep)`: every non-overlapping occurrence, scanned from the left, is replaced. */
  function Replace(s: string, pat: string, rep: string): string
    requires pat != []
    decreases |s|
  {
    if pat <= s then rep + Replace(s[|pat|..], pat, rep)
    else if s == [] then []
    else [s[0]] + Replace(s[1..], pat, rep)
  }

  /** Replacing a pattern that does not occur changes nothing. */
  lemma {:induction false} ReplaceAbsent(s: string, pat: string, rep: string)
    requires pat != [] && !Contains(s, pat)
    ensures Replace(s, pat, rep) == s
    decreases |s|
  {
    if s != [] {
      ReplaceAbsent(s[1..], pat, rep);
    }
  }

  // ---------------------------------------------------------------------------
  // str(n) and int(s)

  /** `str(n)` for a non-negative integer: decimal digits without leading zeros. */
  function NatToString(n: nat): (s: string)
    ensures |s| >= 1 && AllDigits(s)
    ensures |s| > 1 ==> s[0] != '0'
  {
    if n < 10 then [DigitChar(n)] else NatToString(n / 10) + [DigitChar(n % 10)]
  }

  /** The value of a string of decimal digits (leading zeros allowed). */
  function DigitsValue(s: string): nat
    requires AllDigits(s)
  {
    if s == [] then 0 else DigitsValue(s[..|s| - 1]) * 10 + DigitValue(s[|s| - 1])
  }

  lemma {:induction false} NatToStringValue(n: nat)
    ensures DigitsValue(NatToString(n)) == n
  {
    if n >= 10 {
      NatToStringValue(n / 10);
      var s := NatToString(n);
      assert s[..|s| - 1] == NatToString(n / 10);
    }
  }

  /**
   * The digit grammar `int()` accepts for base 10: ASCII digits, with single underscores allowed
   * between two digits (`9_0`), leading zeros allowed (`090`).
   */
  predicate DigitPart(s: string) {
    && |s| > 0
    && IsDigit(s[0]) && IsDigit(s[|s| - 1])
    && (forall i :: 0 <= i < |s| ==> IsDigit(s[i]) || s[i] == '_')
    && !Contains(s, "__")
  }

  function DropUnderscores(s: string): (r: string)
    requires forall i :: 0 <= i < |s| ==> IsDigit(s[i]) || s[i] == '_'
    ensures AllDigits(r)
    ensures AllDigits(s) ==> r == s
  {
    if s == [] then []
    else (if s[0] == '_' then [] else [s[0]]) + DropUnderscores(s[1..])
  }

  /** `int(s)`: surrounding whitespace, an optional sign, then a digit part; `None` where Python raises. */
  function ParseInt(s: string): (r: Option<int>)
    ensures r.Some? ==> Strip(s) != []
  {
    var t := Strip(s);
    if t != [] && (t[0] == '+' || t[0] == '-') then
      if DigitPart(t[1..]) then
        var v: int := DigitsValue(DropUnderscores(t[1..]));
        Some(if t[0] == '-' then -v else v)
      else None
    else if DigitPart(t) then Some(DigitsValue(DropUnderscores(t)))
    else None
  }

  /** A plain digit string is accepted by `int()` with its decimal value. */
  lemma ParseDigits(s: string)
    requires |s| > 0 && AllDigits(s)
    ensures ParseInt(s) == Some(DigitsValue(s))
  {
    assert !IsSpace(s[0]) && !IsSpace(s[|s| - 1]);
    StripUnpadded(s);
    ContainsChar(s, "__", 0);
    assert '_' !in s;
    assert DigitPart(s);
  }

  /** A character that is neither whitespace, a sign, a digit nor `_` makes `int()` fail. */
  lemma ParseForeign(s: string, i: nat)
    requires i < |s| && !IsSpace(s[i]) && !IsDigit(s[i]) && s[i] !in "_+-"
    ensures ParseInt(s) == None
  {
    StripKeeps(s, i);
    var t := Strip(s);
    var j :| 0 <= j < |t| && t[j] == s[i];
    if j > 0 {
      assert t[1..][j - 1] == s[i];
    }
  }

  /** `int(str(n)) == n` */
  lemma ParseNatToString(n: nat)
    ensures ParseInt(NatToString(n)) == Some(n)
  {
    ParseDigits(NatToString(n));
    NatToStringValue(n);
  }

  function Min(a: int, b: int): int {
    if a < b then a else b
  }

  /** Moving a piece from the pending part to the accumulated part keeps the total. */
  lemma AppendShift<T>(acc: seq<T>, x: seq<T>, rest: seq<T>, total: seq<T>)
    requires acc + (x + rest) == total
    ensures (acc + x) + rest == total
  {
  }
}
