/**
 * The string operations of Rust's `str` that the modelled code relies on, restricted to
 * ASCII: character classes, case folding, trimming, searching, replacing, splitting,
 * joining, and parsing of unsigned decimal numbers.
 */
module Strings {
  import opened Wrappers

  const U32_LIMIT: nat := 0x1_0000_0000

  /** An unsigned 32-bit integer (`u32`). */
  type U32 = n: nat | n < U32_LIMIT

  // ---------------------------------------------------------------------------
  // Character classes (the ASCII part of Unicode's White_Space and Alphanumeric)
  // ---------------------------------------------------------------------------

  predicate IsSpace(c: char) { c == ' ' || ('\t' <= c <= '\r') }
  predicate IsDigit(c: char) { '0' <= c <= '9' }
  predicate IsLowerAlpha(c: char) { 'a' <= c <= 'z' }
  predicate IsUpperAlpha(c: char) { 'A' <= c <= 'Z' }
  predicate IsAlnum(c: char) { IsDigit(c) || IsLowerAlpha(c) || IsUpperAlpha(c) }

  function LowerChar(c: char): (r: char)
    ensures !IsUpperAlpha(r)
    ensures IsAlnum(c) <==> IsAlnum(r)
    ensures IsSpace(c) <==> IsSpace(r)
    ensures !IsUpperAlpha(c) ==> r == c
  {
    if IsUpperAlpha(c) then (c as int + 32) as char else c
  }

  /** `str::to_lowercase` on ASCII text. */
  function Lower(s: string): (r: string)
    ensures |r| == |s|
    ensures forall i :: 0 <= i < |s| ==> r[i] == LowerChar(s[i])
  {
    seq(|s|, i requires 0 <= i < |s| => LowerChar(s[i]))
  }

  /** `str::eq_ignore_ascii_case` */
  predicate EqIgnoreCase(a: string, b: string) { Lower(a) == Lower(b) }

  lemma LowerIdempotent(s: string)
    ensures Lower(Lower(s)) == Lower(s)
  {
  }

  // ---------------------------------------------------------------------------
  // Prefixes, searching and trimming
  // ---------------------------------------------------------------------------

  predicate IsPrefix(p: string, s: string) { |p| <= |s| && s[..|p|] == p }

  /** `str::contains` with a string pattern. */
  predicate Contains(s: string, pat: string) {
    exists i | 0 <= i <= |s| - |pat| :: IsPrefix(pat, s[i..])
  }

  /** `str::strip_prefix(p).unwrap_or(s)` */
  function StripPrefix(s: string, p: string): (r: string)
    ensures IsPrefix(p, s) ==> s == p + r
    ensures !IsPrefix(p, s) ==> r == s
  {
    if IsPrefix(p, s) then s[|p|..] else s
  }

  lemma StripPrefixOfPrefixed(p: string, x: string)
    ensures StripPrefix(p + x, p) == x
  {
    assert IsPrefix(p, p + x);
    assert (p + x)[|p|..] == x;
  }

  function TrimStart(s: string): (r: string)
    ensures |r| <= |s| && r == s[|s| - |r|..]
    ensures r == [] || !IsSpace(r[0])
    ensures forall i :: 0 <= i < |s| - |r| ==> IsSpace(s[i])
    decreases |s|
  {
    if |s| > 0 && IsSpace(s[0]) then TrimStart(s[1..]) else s
  }

  function TrimEnd(s: string): (r: string)
    ensures |r| <= |s| && r == s[..|r|]
    ensures r == [] || !IsSpace(r[|r| - 1])
    ensures forall i :: |r| <= i < |s| ==> IsSpace(s[i])
    decreases |s|
  {
    if |s| > 0 && IsSpace(s[|s| - 1]) then TrimEnd(s[..|s| - 1]) else s
  }

  /** `str::trim`: drops leading and trailing white space and nothing else. */
  function Trim(s: string): (r: string)
    ensures r == [] || (!IsSpace(r[0]) && !IsSpace(r[|r| - 1]))
    ensures |r| <= |s| && forall c :: c in r ==> c in s
    ensures r == [] <==> forall i :: 0 <= i < |s| ==> IsSpace(s[i])
    ensures (s == [] || (!IsSpace(s[0]) && !IsSpace(s[|s| - 1]))) ==> r == s
  {
    TrimEmptyIffBlank(s);
    TrimEnds(s);
    TrimUnchanged(s);
    TrimEnd(TrimStart(s))
  }

  lemma TrimEnds(s: string)
    ensures var r := TrimEnd(TrimStart(s)); r == [] || (!IsSpace(r[0]) && !IsSpace(r[|r| - 1]))
  {
    var a := TrimStart(s);
    var r := TrimEnd(a);
    if r != [] {
      assert r[0] == a[0];
    }
  }

  lemma TrimUnchanged(s: string)
    ensures (s == [] || (!IsSpace(s[0]) && !IsSpace(s[|s| - 1]))) ==> TrimEnd(TrimStart(s)) == s
  {
    if s == [] || (!IsSpace(s[0]) && !IsSpace(s[|s| - 1])) {
      assert TrimStart(s) == s;
      assert TrimEnd(s) == s;
    }
  }

  lemma TrimEmptyIffBlank(s: string)
    ensures TrimEnd(TrimStart(s)) == [] <==> forall i :: 0 <= i < |s| ==> IsSpace(s[i])
    ensures forall c :: c in TrimEnd(TrimStart(s)) ==> c in s
  {
    var a := TrimStart(s);
    TrimCharsFrom(s, a, TrimEnd(a));
    if TrimEnd(a) == [] {
      BlankWhenTrimmedEmpty(s, a);
    }
    if a != [] {
      assert a[0] == s[|s| - |a|];
    }
  }

  lemma TrimCharsFrom(s: string, a: string, r: string)
    requires |a| <= |s| && a == s[|s| - |a|..]
    requires |r| <= |a| && r == a[..|r|]
    ensures forall c :: c in r ==> c in s
  {
    forall c | c in r ensures c in s {
      var i :| 0 <= i < |r| && r[i] == c;
      assert a[i] == c;
      assert s[|s| - |a| + i] == c;
    }
  }

  lemma BlankWhenTrimmedEmpty(s: string, a: string)
    requires a == TrimStart(s) && TrimEnd(a) == []
    ensures forall i :: 0 <= i < |s| ==> IsSpace(s[i])
  {
    assert a == [];
  }

  /** One space before or after text that is already trimmed is trimmed away again. */
  lemma TrimOneSpace(t: string)
    requires t == [] || (!IsSpace(t[0]) && !IsSpace(t[|t| - 1]))
    ensures Trim(" " + t) == t && Trim(t + " ") == t
  {
    var a := " " + t;
    assert a[1..] == t;
    assert TrimStart(t) == t;
    assert TrimStart(a) == t;
    assert TrimEnd(t) == t;
    var b := t + " ";
    assert b[..|b| - 1] == t;
    assert TrimEnd(b) == t;
    if t != [] {
      assert b[0] == t[0];
      assert TrimStart(b) == b;
    } else {
      assert TrimStart(b) == [];
    }
  }

  // ---------------------------------------------------------------------------
  // Replacing
  // ---------------------------------------------------------------------------

  /** `str::replace(c, rep)` with a one-character pattern. */
  function ReplaceChar(s: string, c: char, rep: string): (r: string)
    ensures c !in rep ==> c !in r
    ensures forall x :: x in r ==> x in rep || (x in s && x != c)
    ensures c !in s ==> r == s
    ensures forall x :: x in s && x != c ==> x in r
    ensures |rep| == 1 ==> |r| == |s|
  {
    if s == [] then []
    else (if s[0] == c then rep else [s[0]]) + ReplaceChar(s[1..], c, rep)
  }

  /** `str::replace(pat, "")`: removes every match, scanning left to right. */
  function RemoveAll(s: string, pat: string): (r: string)
    requires |pat| > 0
    ensures |r| <= |s|
    decreases |s|
  {
    if |s| == 0 then []
    else if IsPrefix(pat, s) then RemoveAll(s[|pat|..], pat)
    else [s[0]] + RemoveAll(s[1..], pat)
  }

  /** Text without a match of `pat` is left unchanged. */
  lemma {:induction false} RemoveAllNoMatch(s: string, pat: string)
    requires |pat| > 0 && !Contains(s, pat)
    ensures RemoveAll(s, pat) == s
    decreases |s|
  {
    if |s| > 0 {
      assert !IsPrefix(pat, s[0..]);
      assert s[0..] == s;
      forall i | 0 <= i <= |s[1..]| - |pat| ensures !IsPrefix(pat, s[1..][i..]) {
        assert s[1..][i..] == s[i + 1..];
      }
      RemoveAllNoMatch(s[1..], pat);
    }
  }

  // ---------------------------------------------------------------------------
  // The last match of a pattern (`str::rsplit(pat).next()`)
  // ---------------------------------------------------------------------------

  function LastMatchFrom(s: string, pat: string, i: int): (r: Option<nat>)
    requires i < |s|
    ensures r.Some? ==> r.value <= i && IsPrefix(pat, s[r.value..])
    ensures r.Some? ==> forall j :: r.value < j <= i ==> !IsPrefix(pat, s[j..])
    ensures r.None? ==> forall j :: 0 <= j <= i ==> !IsPrefix(pat, s[j..])
    decreases i + 1
  {
    if i < 0 then None
    else if IsPrefix(pat, s[i..]) then Some(i)
    else LastMatchFrom(s, pat, i - 1)
  }

  /** The position of the right-most match of `pat` in `s`, if any. */
  function LastMatch(s: string, pat: string): (r: Option<nat>)
    requires |pat| > 0
    ensures r.Some? ==> r.value + |pat| <= |s| && IsPrefix(pat, s[r.value..])
    ensures r.Some? ==> forall j :: r.value < j <= |s| ==> !IsPrefix(pat, s[j..])
    ensures r.None? ==> !Contains(s, pat)
  {
    LastMatchFrom(s, pat, |s| - |pat|)
  }

  /**
   * `s.rsplit(pat).next().unwrap_or(s)`: the text after the right-most match of `pat`,
   * or the whole of `s` when there is none.
   */
  function AfterLast(s: string, pat: string): (r: string)
    requires |pat| > 0
    ensures !Contains(r, pat)
    ensures Contains(s, pat) ==> exists i :: 0 <= i <= |s| - |pat| - |r| && s == s[..i] + pat + r
    ensures !Contains(s, pat) ==> r == s
  {
    match LastMatch(s, pat)
    case None => s
    case Some(i) =>
      AfterMatchHasNoMatch(s, pat, i);
      s[i + |pat|..]
  }

  /** With a one-character separator, the text after the last separator is the final piece. */
  lemma AfterLastChar(a: string, c: char, b: string)
    requires c !in b
    ensures AfterLast(a + [c] + b, [c]) == b
  {
    var s := a + [c] + b;
    assert IsPrefix([c], s[|a|..]);
    var m := LastMatch(s, [c]);
    assert m.Some?;
    var i := m.value;
    forall j | |a| < j < |s| ensures s[j] != c {
      assert s[j] == b[j - |a| - 1];
    }
    assert s[i..][0] == c;
    assert i == |a|;
    assert s[i + 1..] == b;
  }

  lemma AfterMatchHasNoMatch(s: string, pat: string, i: nat)
    requires |pat| > 0 && i + |pat| <= |s| && IsPrefix(pat, s[i..])
    requires forall j :: i < j <= |s| ==> !IsPrefix(pat, s[j..])
    ensures !Contains(s[i + |pat|..], pat)
    ensures s == s[..i] + pat + s[i + |pat|..]
  {
    var r := s[i + |pat|..];
    forall j | 0 <= j <= |r| - |pat| ensures !IsPrefix(pat, r[j..]) {
      assert r[j..] == s[i + |pat| + j..];
    }
    assert s[i..i + |pat|] == pat;
    assert s == s[..i] + s[i..i + |pat|] + r;
  }

  // ---------------------------------------------------------------------------
  // Joining and splitting
  // ---------------------------------------------------------------------------

  /** `[String]::join(sep)` */
  function Join(ws: seq<string>, sep: string): string
    decreases |ws|
  {
    if |ws| == 0 then [] else if |ws| == 1 then ws[0] else ws[0] + sep + Join(ws[1..], sep)
  }

  /** `str::split(c)` with a one-character separator; always yields at least one piece. */
  function SplitChar(s: string, c: char): (r: seq<string>)
    ensures |r| >= 1
    ensures forall k :: 0 <= k < |r| ==> c !in r[k]
    decreases |s|
  {
    if |s| == 0 then [[]]
    else
      var rest := SplitChar(s[1..], c);
      if s[0] == c then [[]] + rest else [[s[0]] + rest[0]] + rest[1..]
  }

  /** Splitting on `c` and joining with `c` gives back the text. */
  lemma {:induction false} JoinSplitChar(s: string, c: char)
    ensures Join(SplitChar(s, c), [c]) == s
    decreases |s|
  {
    if |s| > 0 {
      var rest := SplitChar(s[1..], c);
      JoinSplitChar(s[1..], c);
      if s[0] == c {
        assert SplitChar(s, c) == [[]] + rest;
        assert Join([[]] + rest, [c]) == [] + [c] + Join(rest, [c]);
      } else {
        var r := SplitChar(s, c);
        assert r == [[s[0]] + rest[0]] + rest[1..];
        if |rest| == 1 {
          assert Join(r, [c]) == [s[0]] + rest[0];
        } else {
          assert r[1..] == rest[1..];
          assert Join(rest, [c]) == rest[0] + [c] + Join(rest[1..], [c]);
        }
      }
    }
  }

  /** `str::split(sep)` with a multi-character separator (left-most, non-overlapping). */
  function SplitStr(s: string, sep: string): (r: seq<string>)
    requires |sep| > 0
    ensures |r| >= 1
    decreases |s|
  {
    if |s| == 0 then [[]]
    else if IsPrefix(sep, s) then [[]] + SplitStr(s[|sep|..], sep)
    else
      var rest := SplitStr(s[1..], sep);
      [[s[0]] + rest[0]] + rest[1..]
  }

  /** Splitting on `sep` and joining with `sep` gives back the text. */
  lemma {:induction false} JoinSplitStr(s: string, sep: string)
    requires |sep| > 0
    ensures Join(SplitStr(s, sep), sep) == s
    decreases |s|
  {
    if |s| > 0 {
      if IsPrefix(sep, s) {
        var rest := SplitStr(s[|sep|..], sep);
        JoinSplitStr(s[|sep|..], sep);
        assert Join([[]] + rest, sep) == [] + sep + Join(rest, sep);
        assert s == sep + s[|sep|..];
      } else {
        var rest := SplitStr(s[1..], sep);
        JoinSplitStr(s[1..], sep);
        var r := SplitStr(s, sep);
        assert r == [[s[0]] + rest[0]] + rest[1..];
        if |rest| == 1 {
          assert Join(r, sep) == [s[0]] + rest[0];
        } else {
          assert r[1..] == rest[1..];
          assert Join(rest, sep) == rest[0] + sep + Join(rest[1..], sep);
        }
      }
    }
  }

  /**
   * The first piece of a split is a prefix of the text, and the separator starts at none
   * of its positions.
   */
  lemma {:induction false} SplitStrHead(s: string, sep: string)
    requires |sep| > 0
    ensures SplitStr(s, sep)[0] <= s
    ensures forall i :: 0 <= i < |SplitStr(s, sep)[0]| ==> !IsPrefix(sep, s[i..])
    decreases |s|
  {
    if |s| > 0 && !IsPrefix(sep, s) {
      var rest := SplitStr(s[1..], sep);
      SplitStrHead(s[1..], sep);
      var head := SplitStr(s, sep)[0];
      assert head == [s[0]] + rest[0];
      forall i | 0 < i < |head|
        ensures !IsPrefix(sep, s[i..])
      {
        assert s[i..] == s[1..][i - 1..];
      }
    }
  }

  /** A prefix of `s` at none of whose positions `sep` starts does not contain `sep`. */
  lemma PrefixWithoutSep(p: string, s: string, sep: string)
    requires |sep| > 0 && p <= s
    requires forall i :: 0 <= i < |p| ==> !IsPrefix(sep, s[i..])
    ensures !Contains(p, sep)
  {
    forall i | 0 <= i <= |p| - |sep|
      ensures !IsPrefix(sep, p[i..])
    {
      assert p[i..][..|sep|] == s[i..][..|sep|];
    }
  }

  /** `str::split` cuts at every occurrence: no piece contains the separator. */
  lemma {:induction false} SplitStrNoSep(s: string, sep: string)
    requires |sep| > 0
    ensures forall k :: 0 <= k < |SplitStr(s, sep)| ==> !Contains(SplitStr(s, sep)[k], sep)
    decreases |s|
  {
    var r := SplitStr(s, sep);
    if |s| == 0 {
      assert r == [[]];
    } else if IsPrefix(sep, s) {
      var rest := SplitStr(s[|sep|..], sep);
      SplitStrNoSep(s[|sep|..], sep);
      assert r == [[]] + rest;
      assert !Contains([], sep);
    } else {
      var rest := SplitStr(s[1..], sep);
      SplitStrNoSep(s[1..], sep);
      SplitStrHead(s, sep);
      PrefixWithoutSep(r[0], s, sep);
      assert r[1..] == rest[1..];
    }
  }

  // ---------------------------------------------------------------------------
  // Unsigned decimal numbers (`str::parse::<u32>` and `u32::to_string`)
  // ---------------------------------------------------------------------------

  predicate AllDigits(s: string) { forall i :: 0 <= i < |s| ==> IsDigit(s[i]) }

  function DigitValue(c: char): nat requires IsDigit(c) { c as int - '0' as int }

  function DigitChar(d: nat): (c: char)
    requires d < 10
    ensures IsDigit(c) && DigitValue(c) == d
  {
    ('0' as int + d) as char
  }

  function DigitsValue(s: string): nat
    requires AllDigits(s)
    decreases |s|
  {
    if |s| == 0 then 0 else DigitsValue(s[..|s| - 1]) * 10 + DigitValue(s[|s| - 1])
  }

  /**
   * `str::parse::<u32>`: an optional '+', then one or more ASCII digits whose value fits
   * in 32 bits; anything else is an error.
   */
  function ParseU32(s: string): (r: Option<U32>)
    ensures r.Some? ==> |s| > 0 && (IsDigit(s[0]) || s[0] == '+')
    ensures r.Some? ==> forall i :: 0 < i < |s| ==> IsDigit(s[i])
  {
    var digits := if |s| > 0 && s[0] == '+' then s[1..] else s;
    if |digits| == 0 || !AllDigits(digits) then None
    else
      var v := DigitsValue(digits);
      if v < U32_LIMIT then Some(v) else None
  }

  /** `u32::to_string`: the shortest decimal numeral. */
  function Decimal(n: nat): (r: string)
    ensures |r| > 0 && AllDigits(r)
    ensures r[0] != '0' || n == 0
    decreases n
  {
    if n < 10 then [DigitChar(n)] else Decimal(n / 10) + [DigitChar(n % 10)]
  }

  lemma {:induction false} DecimalValue(n: nat)
    ensures DigitsValue(Decimal(n)) == n
    decreases n
  {
    if n >= 10 {
      DecimalValue(n / 10);
      var d := Decimal(n);
      assert d[..|d| - 1] == Decimal(n / 10);
    }
  }

  /** Printing a `u32` and parsing it back gives the same number. */
  lemma ParseDecimal(n: U32)
    ensures ParseU32(Decimal(n)) == Some(n)
  {
    DecimalValue(n);
  }

  // ---------------------------------------------------------------------------
  // Whitespace-separated words (`str::split_whitespace`)
  // ---------------------------------------------------------------------------

  /** A non-empty run of non-space characters. */
  predicate IsWord(w: string) {
    |w| > 0 && forall i :: 0 <= i < |w| ==> !IsSpace(w[i])
  }

  /** Length of the leading run of non-space characters. */
  function WordEnd(s: string): (n: nat)
    ensures n <= |s|
    ensures forall i :: 0 <= i < n ==> !IsSpace(s[i])
    ensures n < |s| ==> IsSpace(s[n])
    decreases |s|
  {
    if s == [] || IsSpace(s[0]) then 0 else 1 + WordEnd(s[1..])
  }

  /** `split_whitespace`: the maximal runs of non-space characters, in order. */
  function SplitWhitespace(s: string): seq<string>
    decreases |s|
  {
    if s == [] then []
    else if IsSpace(s[0]) then SplitWhitespace(s[1..])
    else
      var n := WordEnd(s);
      [s[..n]] + SplitWhitespace(s[n..])
  }

  /** Each piece is a word made of characters of `s`. */
  lemma {:induction false} SplitWhitespaceWords(s: string)
    ensures forall k :: 0 <= k < |SplitWhitespace(s)| ==> IsWord(SplitWhitespace(s)[k])
    ensures forall k, c :: 0 <= k < |SplitWhitespace(s)| && c in SplitWhitespace(s)[k] ==> c in s
    decreases |s|
  {
    if s != [] {
      if IsSpace(s[0]) {
        SplitWhitespaceWords(s[1..]);
        assert forall c :: c in s[1..] ==> c in s;
      } else {
        var n := WordEnd(s);
        SplitWhitespaceWords(s[n..]);
        assert forall c :: c in s[n..] ==> c in s;
        assert forall c :: c in s[..n] ==> c in s;
        var ws := SplitWhitespace(s);
        assert ws == [s[..n]] + SplitWhitespace(s[n..]);
        forall k | 0 <= k < |ws| ensures IsWord(ws[k]) {
          if k > 0 { assert ws[k] == SplitWhitespace(s[n..])[k - 1]; }
        }
        forall k, c | 0 <= k < |ws| && c in ws[k] ensures c in s {
          if k > 0 { assert ws[k] == SplitWhitespace(s[n..])[k - 1]; }
        }
      }
    }
  }

  /** Words joined by single spaces split back into the same words. */
  lemma {:induction false} SplitJoinWords(ws: seq<string>)
    requires forall k :: 0 <= k < |ws| ==> IsWord(ws[k])
    ensures SplitWhitespace(Join(ws, " ")) == ws
    decreases |ws|
  {
    if |ws| == 1 {
      var w := ws[0];
      assert WordEnd(w) == |w|;
      assert w[..|w|] == w && w[|w|..] == [];
      assert SplitWhitespace(w) == [w[..WordEnd(w)]] + SplitWhitespace(w[WordEnd(w)..]);
    } else if |ws| > 1 {
      var w, rest := ws[0], Join(ws[1..], " ");
      var s := w + " " + rest;
      assert s[..|w|] == w;
      assert s[|w|] == ' ';
      assert forall i :: 0 <= i < |w| ==> s[i] == w[i];
      assert WordEnd(s) == |w|;
      assert s[|w|..] == " " + rest;
      assert (" " + rest)[1..] == rest;
      SplitJoinWords(ws[1..]);
      assert ws == [w] + ws[1..];
    }
  }

  /**
   * A string with no leading, trailing or repeated whitespace, whose only whitespace
   * character is ' '.
   */
  predicate SingleSpaced(s: string) {
    (|s| > 0 ==> !IsSpace(s[0]) && !IsSpace(s[|s| - 1]))
    && (forall i :: 0 <= i < |s| && IsSpace(s[i]) ==> s[i] == ' ')
    && (forall i :: 0 <= i < |s| - 1 ==> !(IsSpace(s[i]) && IsSpace(s[i + 1])))
  }

  /** Words joined by single spaces are single-spaced, and every character comes from a word. */
  lemma {:induction false} JoinWordsSingleSpaced(ws: seq<string>)
    requires forall k :: 0 <= k < |ws| ==> IsWord(ws[k])
    ensures SingleSpaced(Join(ws, " "))
    ensures forall c :: c in Join(ws, " ") ==> c == ' ' || exists k :: 0 <= k < |ws| && c in ws[k]
    decreases |ws|
  {
    if |ws| > 1 {
      JoinWordsSingleSpaced(ws[1..]);
      var w, rest := ws[0], Join(ws[1..], " ");
      var s := w + " " + rest;
      assert |rest| > 0 && !IsSpace(rest[0]) by {
        assert IsWord(ws[1]);
        if |ws| > 2 { assert rest[..|ws[1]|] == ws[1]; } else { assert rest == ws[1]; }
      }
      forall i | 0 <= i < |s| - 1 ensures !(IsSpace(s[i]) && IsSpace(s[i + 1])) {
        if i + 1 < |w| {
          assert s[i] == w[i];
        } else if i + 1 == |w| {
          assert s[i] == w[i];
        } else if i == |w| {
          assert s[i + 1] == rest[0];
        } else {
          assert s[i] == rest[i - |w| - 1] && s[i + 1] == rest[i - |w|];
        }
      }
      forall c | c in s ensures c == ' ' || exists k :: 0 <= k < |ws| && c in ws[k] {
        if c in w { assert c in ws[0]; }
        else if c !in " " {
          assert c in rest;
          var k :| 0 <= k < |ws[1..]| && c in ws[1..][k];
          assert c in ws[k + 1];
        }
      }
    }
  }
}
