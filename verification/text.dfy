/** The Python string built-ins the pipeline relies on: whitespace,
    `str.lower`, `in` on strings, `str.strip`, `str.split()`,
    `str.replace(old, "")`, `str.endswith` and `str(int)`. */
module Text {

  /** Python's whitespace test. `str.isspace`, `str.split()`, `str.strip()`
      and the regular-expression class `\s` all use this one set. */
  predicate IsSpace(c: char)
  {
    || c == ' '
    || '\t' <= c <= '\r'
    || '\U{1C}' <= c <= '\U{1F}'
    || c == '\U{85}'
    || c == '\U{A0}'
    || c == '\U{1680}'
    || '\U{2000}' <= c <= '\U{200A}'
    || c == '\U{2028}'
    || c == '\U{2029}'
    || c == '\U{202F}'
    || c == '\U{205F}'
    || c == '\U{3000}'
  }

  predicate AllSpace(s: string)
  {
    forall i :: 0 <= i < |s| ==> IsSpace(s[i])
  }

  /** `str.lower` on one character: ASCII and Latin-1 capitals. */
  function LowerChar(c: char): char
  {
    if 'A' <= c <= 'Z' || ('\U{C0}' <= c <= '\U{DE}' && c != '\U{D7}')
    then (c as int + 32) as char
    else c
  }

  function Lower(s: string): (r: string)
    ensures |r| == |s|
  {
    seq(|s|, i requires 0 <= i < |s| => LowerChar(s[i]))
  }

  // ---------------------------------------------------------------------
  // Substring containment: Python's `needle in hay`

  predicate IsPrefix(p: string, s: string)
  {
    |p| <= |s| && s[..|p|] == p
  }

  predicate Contains(hay: string, needle: string)
    decreases |hay|
  {
    IsPrefix(needle, hay) || (|hay| > 0 && Contains(hay[1..], needle))
  }

  /** `needle` occurs in `hay` starting at index `i`. */
  predicate OccursAt(hay: string, needle: string, i: int)
  {
    0 <= i && i + |needle| <= |hay| && hay[i..i + |needle|] == needle
  }

  /** The scanning definition of containment agrees with "occurs at some index". */
  lemma {:induction false} ContainsIff(hay: string, needle: string)
    ensures Contains(hay, needle) <==> exists i :: OccursAt(hay, needle, i)
    decreases |hay|
  {
    if Contains(hay, needle) {
      if IsPrefix(needle, hay) {
        assert OccursAt(hay, needle, 0);
      } else {
        ContainsIff(hay[1..], needle);
        var i :| OccursAt(hay[1..], needle, i);
        assert hay[1..][i..i + |needle|] == hay[i + 1..i + 1 + |needle|];
        assert OccursAt(hay, needle, i + 1);
      }
    }
    if exists i :: OccursAt(hay, needle, i) {
      var i :| OccursAt(hay, needle, i);
      if i == 0 {
        assert IsPrefix(needle, hay);
      } else {
        assert hay[1..][i - 1..i - 1 + |needle|] == hay[i..i + |needle|];
        assert OccursAt(hay[1..], needle, i - 1);
        ContainsIff(hay[1..], needle);
      }
    }
  }

  lemma ContainsAt(hay: string, needle: string, i: int)
    requires OccursAt(hay, needle, i)
    ensures Contains(hay, needle)
  {
    ContainsIff(hay, needle);
  }

  /** A text containing a phrase contains every part of that phrase. */
  lemma ContainsTransitive(a: string, b: string, c: string)
    requires Contains(a, b) && Contains(b, c)
    ensures Contains(a, c)
  {
    ContainsIff(a, b);
    ContainsIff(b, c);
    var i :| OccursAt(a, b, i);
    var j :| OccursAt(b, c, j);
    assert forall k :: 0 <= k < |c| ==> c[k] == b[j + k] == a[i + j + k];
    assert OccursAt(a, c, i + j);
    ContainsAt(a, c, i + j);
  }

  // ---------------------------------------------------------------------
  // str.strip()

  /** Neither end is whitespace: what `str.strip` leaves behind. */
  predicate Stripped(s: string)
  {
    |s| == 0 || (!IsSpace(s[0]) && !IsSpace(s[|s| - 1]))
  }

  /** `r` is `s` with the whitespace `s[..i]` and `s[i + |r|..]` cut off. */
  predicate TrimmedAt(s: string, r: string, i: int)
  {
    0 <= i && i + |r| <= |s| && s[i..i + |r|] == r
    && AllSpace(s[..i]) && AllSpace(s[i + |r|..])
  }

  function SkipSpaces(s: string, i: nat): (r: nat)
    requires i <= |s|
    ensures i <= r <= |s|
    ensures forall k :: i <= k < r ==> IsSpace(s[k])
    ensures r == |s| || !IsSpace(s[r])
    decreases |s| - i
  {
    if i == |s| || !IsSpace(s[i]) then i else SkipSpaces(s, i + 1)
  }

  function BackSpaces(s: string, lo: nat, hi: nat): (r: nat)
    requires lo <= hi <= |s|
    ensures lo <= r <= hi
    ensures forall k :: r <= k < hi ==> IsSpace(s[k])
    ensures r == lo || !IsSpace(s[r - 1])
    decreases hi - lo
  {
    if hi == lo || !IsSpace(s[hi - 1]) then hi else BackSpaces(s, lo, hi - 1)
  }

  /** Python's `s.strip()`. */
  function Strip(s: string): string
  {
    var i := SkipSpaces(s, 0);
    s[i..BackSpaces(s, i, |s|)]
  }

  /** `s.strip()` is the unique stripped string obtained from `s` by removing
      whitespace at both ends. */
  lemma StripSpec(s: string)
    ensures Stripped(Strip(s))
    ensures exists i :: TrimmedAt(s, Strip(s), i)
  {
    var i := SkipSpaces(s, 0);
    var j := BackSpaces(s, i, |s|);
    assert AllSpace(s[..i]) by {
      assert s[..i] == s[0..i];
    }
    assert i < j ==> !IsSpace(s[i]);
    assert TrimmedAt(s, s[i..j], i);
  }

  /** `s.strip()` is empty exactly when `s` is all whitespace, so
      `if s.strip():` keeps exactly the non-blank pieces. */
  lemma StripEmptyIff(s: string)
    ensures Strip(s) == [] <==> AllSpace(s)
  {
    StripSpec(s);
    var i :| TrimmedAt(s, Strip(s), i);
    if Strip(s) == [] {
      assert s == s[..i] + s[i..];
    } else {
      assert !IsSpace(s[i]);
    }
  }

  /** Stripping a stripped string changes nothing; in particular
      `strip` is idempotent. */
  lemma {:induction false} StripStripped(s: string)
    requires Stripped(s)
    ensures Strip(s) == s
  {
    var r := Strip(s);
    StripSpec(s);
    var i :| TrimmedAt(s, r, i);
    if |s| > 0 {
      assert i == 0 && |r| == |s|;
      assert r == s[0..|s|] == s;
    }
  }

  // ---------------------------------------------------------------------
  // str.split() with no argument

  /** A maximal run of non-whitespace: what `str.split()` returns. */
  predicate IsWord(w: string)
  {
    |w| > 0 && forall i :: 0 <= i < |w| ==> !IsSpace(w[i])
  }

  function WordEnd(s: string, i: nat): (r: nat)
    requires i <= |s|
    ensures i <= r <= |s|
    ensures forall k :: i <= k < r ==> !IsSpace(s[k])
    ensures r == |s| || IsSpace(s[r])
    decreases |s| - i
  {
    if i == |s| || IsSpace(s[i]) then i else WordEnd(s, i + 1)
  }

  /** Python's `s.split()`: the whitespace-separated words, in order. */
  function Words(s: string): (r: seq<string>)
    ensures forall k :: 0 <= k < |r| ==> IsWord(r[k])
    decreases |s|
  {
    if |s| == 0 then []
    else if IsSpace(s[0]) then Words(s[1..])
    else
      var e := WordEnd(s, 0);
      [s[..e]] + Words(s[e..])
  }

  /** `" ".join(ws)` */
  function JoinWords(ws: seq<string>): string
  {
    if |ws| == 0 then ""
    else if |ws| == 1 then ws[0]
    else ws[0] + " " + JoinWords(ws[1..])
  }

  lemma WordsOfWordThenRest(w: string, rest: string)
    requires IsWord(w)
    requires rest == [] || IsSpace(rest[0])
    ensures Words(w + rest) == [w] + Words(rest)
  {
    var s := w + rest;
    var e := WordEnd(s, 0);
    assert forall k :: 0 <= k < |w| ==> s[k] == w[k];
    assert |w| < |s| ==> s[|w|] == rest[0];
    assert e == |w|;
    assert s[..e] == w && s[e..] == rest;
  }

  /** Round trip: splitting the space-joined words gives the words back. */
  lemma {:induction false} WordsJoinWords(ws: seq<string>)
    requires forall k :: 0 <= k < |ws| ==> IsWord(ws[k])
    ensures Words(JoinWords(ws)) == ws
  {
    if |ws| == 0 {
    } else if |ws| == 1 {
      WordsOfWordThenRest(ws[0], "");
      assert ws[0] + "" == ws[0];
    } else {
      var rest := JoinWords(ws[1..]);
      WordsJoinWords(ws[1..]);
      assert (" " + rest)[1..] == rest;
      assert Words(" " + rest) == Words(rest);
      WordsOfWordThenRest(ws[0], " " + rest);
      assert ws[0] + " " + rest == ws[0] + (" " + rest);
      assert [ws[0]] + ws[1..] == ws;
    }
  }

  /** A text made only of whitespace has no words. */
  lemma {:induction false} WordsAllSpace(s: string)
    requires AllSpace(s)
    ensures Words(s) == []
    decreases |s|
  {
    if |s| > 0 {
      WordsAllSpace(s[1..]);
    }
  }

  /** The text `gaps[0] + ws[0] + gaps[1] + ... + ws[n-1] + gaps[n]`. */
  function Spaced(gaps: seq<string>, ws: seq<string>): string
    requires |gaps| == |ws| + 1
    decreases |ws|
  {
    if |ws| == 0 then gaps[0] else gaps[0] + ws[0] + Spaced(gaps[1..], ws[1..])
  }

  /** `ws` are words and `gaps` whitespace runs around them, those between
      two words non-empty. */
  predicate SpacedWell(gaps: seq<string>, ws: seq<string>)
  {
    && |gaps| == |ws| + 1
    && (forall k :: 0 <= k < |ws| ==> IsWord(ws[k]))
    && (forall k :: 0 <= k < |gaps| ==> AllSpace(gaps[k]))
    && (forall k :: 0 < k < |ws| ==> |gaps[k]| > 0)
  }

  /** Leading whitespace does not change the words. */
  lemma {:induction false} WordsSkipSpace(g: string, t: string)
    requires AllSpace(g)
    ensures Words(g + t) == Words(t)
    decreases |g|
  {
    if |g| > 0 {
      assert (g + t)[0] == g[0];
      assert (g + t)[1..] == g[1..] + t;
      assert Words(g + t) == Words(g[1..] + t);
      WordsSkipSpace(g[1..], t);
    } else {
      assert g + t == t;
    }
  }

  /** A spaced text begins with whitespace exactly when its first gap is
      non-empty. */
  lemma SpacedFirst(gaps: seq<string>, ws: seq<string>)
    requires SpacedWell(gaps, ws) && |ws| > 0
    ensures var s := Spaced(gaps, ws);
            |s| > 0 && (IsSpace(s[0]) <==> |gaps[0]| > 0)
  {
    var s := Spaced(gaps, ws);
    assert s == gaps[0] + ws[0] + Spaced(gaps[1..], ws[1..]);
    if |gaps[0]| == 0 {
      assert s[0] == ws[0][0];
    } else {
      assert s[0] == gaps[0][0];
    }
  }

  /** Whatever whitespace separates and surrounds a list of words,
      `split()` returns exactly those words. */
  lemma {:induction false} WordsSpaced(gaps: seq<string>, ws: seq<string>)
    requires SpacedWell(gaps, ws)
    ensures Words(Spaced(gaps, ws)) == ws
    decreases |ws|
  {
    if |ws| == 0 {
      WordsAllSpace(gaps[0]);
    } else {
      var tail := Spaced(gaps[1..], ws[1..]);
      assert SpacedWell(gaps[1..], ws[1..]);
      WordsSpaced(gaps[1..], ws[1..]);
      if |ws| > 1 {
        SpacedFirst(gaps[1..], ws[1..]);
      }
      WordsOfWordThenRest(ws[0], tail);
      WordsSkipSpace(gaps[0], ws[0] + tail);
      assert Spaced(gaps, ws) == gaps[0] + (ws[0] + tail);
      assert [ws[0]] + ws[1..] == ws;
    }
  }

  /** A leading whitespace character joins the first gap. */
  lemma GapsAfterSpace(c: char, s: string, g: seq<string>) returns (gaps: seq<string>)
    requires IsSpace(c)
    requires SpacedWell(g, Words(s)) && Spaced(g, Words(s)) == s
    ensures SpacedWell(gaps, Words([c] + s)) && Spaced(gaps, Words([c] + s)) == [c] + s
  {
    assert ([c] + s)[1..] == s;
    var ws := Words(s);
    gaps := [[c] + g[0]] + g[1..];
    assert gaps[1..] == g[1..];
    assert Spaced(gaps, ws) == [c] + Spaced(g, ws);
  }

  /** A leading word gets an empty first gap in front of it. */
  lemma GapsAfterWord(w: string, rest: string, g: seq<string>) returns (gaps: seq<string>)
    requires IsWord(w) && (rest == [] || IsSpace(rest[0]))
    requires SpacedWell(g, Words(rest)) && Spaced(g, Words(rest)) == rest
    ensures SpacedWell(gaps, Words(w + rest)) && Spaced(gaps, Words(w + rest)) == w + rest
  {
    var ws := Words(rest);
    if |ws| > 0 {
      SpacedFirst(g, ws);
    }
    WordsOfWordThenRest(w, rest);
    gaps := [""] + g;
    assert gaps[1..] == g;
    assert ([w] + ws)[1..] == ws;
    assert Spaced(gaps, [w] + ws) == "" + w + Spaced(g, ws);
  }

  /** Every text is its words with whitespace gaps around them: together
      with `WordsSpaced`, `split()` returns exactly the maximal
      non-whitespace runs of any input. */
  lemma {:induction false} WordsGaps(s: string) returns (gaps: seq<string>)
    ensures SpacedWell(gaps, Words(s)) && Spaced(gaps, Words(s)) == s
    decreases |s|
  {
    if |s| == 0 {
      gaps := [""];
    } else if IsSpace(s[0]) {
      var g := WordsGaps(s[1..]);
      assert s == [s[0]] + s[1..];
      gaps := GapsAfterSpace(s[0], s[1..], g);
    } else {
      var e := WordEnd(s, 0);
      var g := WordsGaps(s[e..]);
      assert s == s[..e] + s[e..];
      gaps := GapsAfterWord(s[..e], s[e..], g);
    }
  }

  // ---------------------------------------------------------------------
  // str.replace(pat, "") and str.endswith

  /** Python's `s.replace(pat, "")`: every occurrence of `pat`, scanned left
      to right without overlap, is deleted. */
  function RemoveAll(s: string, pat: string): (r: string)
    requires |pat| > 0
    ensures |r| <= |s|
    decreases |s|
  {
    if |s| < |pat| then s
    else if s[..|pat|] == pat then RemoveAll(s[|pat|..], pat)
    else [s[0]] + RemoveAll(s[1..], pat)
  }

  /** Deleting a pattern that does not occur changes nothing. */
  lemma {:induction false} RemoveAllAbsent(s: string, pat: string)
    requires |pat| > 0 && !Contains(s, pat)
    ensures RemoveAll(s, pat) == s
    decreases |s|
  {
    if |s| >= |pat| {
      RemoveAllAbsent(s[1..], pat);
      assert [s[0]] + s[1..] == s;
    }
  }

  /** `(stem + ".txt").replace(".txt", "")` is `stem` when `stem` has no
      ".txt" of its own: no occurrence can straddle the suffix. */
  lemma {:induction false} RemoveTxtSuffix(stem: string)
    requires !Contains(stem, ".txt")
    ensures RemoveAll(stem + ".txt", ".txt") == stem
    decreases |stem|
  {
    var s := stem + ".txt";
    if |stem| == 0 {
      assert s == ".txt";
      assert s[4..] == [];
    } else {
      if |stem| < 4 {
        assert s[|stem|] == '.';
        assert ".txt"[|stem|] != '.';
        assert s[..4] != ".txt";
      } else {
        assert s[..4] == stem[..4];
        assert s[..4] != ".txt";
      }
      RemoveTxtSuffix(stem[1..]);
      assert s[1..] == stem[1..] + ".txt";
      assert [stem[0]] + stem[1..] == stem;
    }
  }

  predicate EndsWith(s: string, suffix: string)
  {
    |suffix| <= |s| && s[|s| - |suffix|..] == suffix
  }

  // ---------------------------------------------------------------------
  // str(n) for integers

  predicate IsDigit(c: char)
  {
    '0' <= c <= '9'
  }

  predicate AllDigits(s: string)
  {
    forall i :: 0 <= i < |s| ==> IsDigit(s[i])
  }

  function DigitChar(d: nat): char
    requires d < 10
  {
    ('0' as int + d) as char
  }

  /** Decimal notation of a natural number, most significant digit first. */
  function NatToString(n: nat): (r: string)
    ensures |r| > 0 && AllDigits(r)
    decreases n
  {
    if n < 10 then [DigitChar(n)] else NatToString(n / 10) + [DigitChar(n % 10)]
  }

  /** The value of a string of decimal digits (int(s) for such strings). */
  function ParseNat(s: string): nat
    requires AllDigits(s)
    decreases |s|
  {
    if |s| == 0 then 0
    else 10 * ParseNat(s[..|s| - 1]) + (s[|s| - 1] as int - '0' as int)
  }

  /** Round trip: `int(str(n)) == n`. */
  lemma {:induction false} ParseNatToString(n: nat)
    ensures ParseNat(NatToString(n)) == n
    decreases n
  {
    var s := NatToString(n);
    if n >= 10 {
      ParseNatToString(n / 10);
      assert s[..|s| - 1] == NatToString(n / 10);
    }
  }

  /** Python's `str(i)` for any integer. */
  function IntToString(i: int): (r: string)
    ensures |r| > 0
    ensures i >= 0 ==> AllDigits(r) && ParseNat(r) == i
    ensures i < 0 ==> r[0] == '-' && AllDigits(r[1..]) && ParseNat(r[1..]) == -i
  {
    if i < 0 then
      ParseNatToString(-i);
      assert ("-" + NatToString(-i))[1..] == NatToString(-i);
      "-" + NatToString(-i)
    else
      ParseNatToString(i);
      NatToString(i)
  }

  /** Different integers print differently. */
  lemma IntToStringInjective(i: int, j: int)
    requires IntToString(i) == IntToString(j)
    ensures i == j
  {
  }
}
