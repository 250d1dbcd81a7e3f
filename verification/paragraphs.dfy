/** Python's `re.split(r'\n\s*\n|#+ ', text)`, the paragraph splitter both
    retrievers use. A separator is either a blank-line run (a newline, any
    whitespace, a newline) or a heading marker (one or more '#', then a
    space). The regular-expression engine scans left to right and, at the
    first position where a separator starts, takes the longest one (the
    greedy `\s*` backs off only as far as the last newline of the
    whitespace run). */
module Paragraphs {
  import opened Results
  import opened Text

  /** The language of `\n\s*\n`. */
  predicate IsBlankLineSep(w: string)
  {
    && |w| >= 2
    && w[0] == '\n'
    && w[|w| - 1] == '\n'
    && forall i :: 0 < i < |w| - 1 ==> IsSpace(w[i])
  }

  /** The language of `#+ `. */
  predicate IsHeadingSep(w: string)
  {
    && |w| >= 2
    && w[|w| - 1] == ' '
    && forall i :: 0 <= i < |w| - 1 ==> w[i] == '#'
  }

  predicate IsSeparator(w: string)
  {
    IsBlankLineSep(w) || IsHeadingSep(w)
  }

  /** No separator occurs anywhere inside `piece`. */
  predicate SeparatorFree(piece: string)
  {
    forall i, j :: 0 <= i <= j <= |piece| ==> !IsSeparator(piece[i..j])
  }

  function HashRunEnd(s: string, i: nat): (r: nat)
    requires i <= |s|
    ensures i <= r <= |s|
    ensures forall k :: i <= k < r ==> s[k] == '#'
    ensures r == |s| || s[r] != '#'
    decreases |s| - i
  {
    if i == |s| || s[i] != '#' then i else HashRunEnd(s, i + 1)
  }

  /** The last newline in `s[lo..hi]`, if any. */
  function LastNewline(s: string, lo: nat, hi: nat): (r: Option<nat>)
    requires lo <= hi <= |s|
    ensures r.Some? ==> lo <= r.value < hi && s[r.value] == '\n'
    ensures r.Some? ==> forall k :: r.value < k < hi ==> s[k] != '\n'
    ensures r.None? ==> forall k :: lo <= k < hi ==> s[k] != '\n'
    decreases hi - lo
  {
    if lo == hi then None
    else if s[hi - 1] == '\n' then Some(hi - 1)
    else LastNewline(s, lo, hi - 1)
  }

  /** A separator of length `m` starts at index `p` of `s`. */
  predicate SeparatorAt(s: string, p: nat, m: nat)
  {
    p + m <= |s| && IsSeparator(s[p..p + m])
  }

  /** Length of the separator the regular expression matches at `p`, or 0
      when none starts there. It is the longest separator starting at `p`. */
  function MatchLength(s: string, p: nat): (n: nat)
    requires p < |s|
    ensures n > 0 ==> SeparatorAt(s, p, n)
    ensures forall m :: n < m ==> !SeparatorAt(s, p, m)
  {
    if s[p] == '\n' then
      var q := SkipSpaces(s, p + 1);
      var last := LastNewline(s, p + 1, q);
      var n := if last.Some? then last.value + 1 - p else 0;
      BlankLineLongest(s, p, q, last, n);
      n
    else if s[p] == '#' then
      var q := HashRunEnd(s, p);
      var n := if q < |s| && s[q] == ' ' then q + 1 - p else 0;
      HeadingLongest(s, p, q, n);
      n
    else
      NoSeparatorAt(s, p);
      0
  }

  lemma SkipSpacesPast(s: string, a: nat, b: nat)
    requires a <= b <= |s|
    requires forall k :: a <= k < b ==> IsSpace(s[k])
    ensures SkipSpaces(s, a) >= b
    decreases b - a
  {
    if a < b {
      SkipSpacesPast(s, a + 1, b);
    }
  }

  lemma HashRunEndExact(s: string, a: nat, b: nat)
    requires a <= b < |s| && s[b] != '#'
    requires forall k :: a <= k < b ==> s[k] == '#'
    ensures HashRunEnd(s, a) == b
    decreases b - a
  {
    if a < b {
      HashRunEndExact(s, a + 1, b);
    }
  }

  /** Any separator at a newline ends at or before the last newline of the
      whitespace run after it. */
  lemma BlankLineBound(s: string, p: nat, q: nat, last: Option<nat>, m: nat)
    requires p < |s| && s[p] == '\n'
    requires q == SkipSpaces(s, p + 1) && last == LastNewline(s, p + 1, q)
    requires SeparatorAt(s, p, m)
    ensures last.Some? && m <= last.value + 1 - p
  {
    var w := s[p..p + m];
    assert w[0] == s[p];
    assert IsBlankLineSep(w);
    forall k | p + 1 <= k < p + m
      ensures IsSpace(s[k])
    {
      assert s[k] == w[k - p];
    }
    SkipSpacesPast(s, p + 1, p + m);
    assert s[p + m - 1] == w[m - 1] == '\n';
  }

  lemma BlankLineLongest(s: string, p: nat, q: nat, last: Option<nat>, n: nat)
    requires p < |s| && s[p] == '\n'
    requires q == SkipSpaces(s, p + 1) && last == LastNewline(s, p + 1, q)
    requires n == if last.Some? then last.value + 1 - p else 0
    ensures n > 0 ==> SeparatorAt(s, p, n)
    ensures forall m :: n < m ==> !SeparatorAt(s, p, m)
  {
    if last.Some? {
      var w := s[p..p + n];
      forall i | 0 < i < |w| - 1
        ensures IsSpace(w[i])
      {
        assert w[i] == s[p + i];
      }
      assert w[|w| - 1] == s[last.value];
      assert IsBlankLineSep(w);
    }
    forall m: nat
      ensures SeparatorAt(s, p, m) ==> m <= n
    {
      if SeparatorAt(s, p, m) {
        BlankLineBound(s, p, q, last, m);
      }
    }
  }

  /** A separator at a '#' is the whole '#' run plus one space. */
  lemma HeadingBound(s: string, p: nat, q: nat, m: nat)
    requires p < |s| && s[p] == '#' && q == HashRunEnd(s, p)
    requires SeparatorAt(s, p, m)
    ensures q < |s| && s[q] == ' ' && m == q + 1 - p
  {
    var w := s[p..p + m];
    assert w[0] == s[p];
    assert IsHeadingSep(w);
    forall k | p <= k < p + m - 1
      ensures s[k] == '#'
    {
      assert s[k] == w[k - p];
    }
    assert s[p + m - 1] == w[m - 1] == ' ';
    HashRunEndExact(s, p, p + m - 1);
  }

  lemma HeadingLongest(s: string, p: nat, q: nat, n: nat)
    requires p < |s| && s[p] == '#' && q == HashRunEnd(s, p)
    requires n == if q < |s| && s[q] == ' ' then q + 1 - p else 0
    ensures n > 0 ==> SeparatorAt(s, p, n)
    ensures forall m :: n < m ==> !SeparatorAt(s, p, m)
  {
    if n > 0 {
      var w := s[p..q + 1];
      forall i | 0 <= i < |w| - 1
        ensures w[i] == '#'
      {
        assert w[i] == s[p + i];
      }
      assert IsHeadingSep(w);
    }
    forall m: nat
      ensures SeparatorAt(s, p, m) ==> m <= n
    {
      if SeparatorAt(s, p, m) {
        HeadingBound(s, p, q, m);
      }
    }
  }

  /** Every separator starts with a newline or a '#'. */
  lemma NoSeparatorAt(s: string, p: nat)
    requires p < |s| && s[p] != '\n' && s[p] != '#'
    ensures forall m :: 0 < m ==> !SeparatorAt(s, p, m)
  {
    forall m | 0 < m
      ensures !SeparatorAt(s, p, m)
    {
      if 2 <= m && p + m <= |s| {
        assert s[p..p + m][0] == s[p];
      }
    }
  }

  /** No separator of any length starts at a position where none matched,
      so a stretch of such positions holds no separator. */
  lemma SeparatorFreeStretch(s: string, start: nat, pos: nat)
    requires start <= pos <= |s|
    requires forall p :: start <= p < pos ==> MatchLength(s, p) == 0
    ensures SeparatorFree(s[start..pos])
  {
    var piece := s[start..pos];
    forall i, j | 0 <= i <= j <= |piece|
      ensures !IsSeparator(piece[i..j])
    {
      assert forall k :: 0 <= k < j - i ==> piece[i..j][k] == s[start + i + k];
      assert piece[i..j] == s[start + i..start + i + (j - i)];
      if i < j {
        assert MatchLength(s, start + i) == 0;
        assert !SeparatorAt(s, start + i, j - i);
      }
    }
  }

  /** `pieces` with `seps[k]` put back between `pieces[k]` and `pieces[k + 1]`. */
  function Interleave(pieces: seq<string>, seps: seq<string>): string
    requires |pieces| == |seps| + 1
  {
    if |seps| == 0 then pieces[0]
    else pieces[0] + seps[0] + Interleave(pieces[1..], seps[1..])
  }

  /** The split of a text: its pieces and the separators matched between them. */
  datatype Split = Split(pieces: seq<string>, seps: seq<string>)

  predicate WellFormedSplit(text: string, r: Split)
  {
    && |r.pieces| == |r.seps| + 1
    && Interleave(r.pieces, r.seps) == text
    && (forall k :: 0 <= k < |r.seps| ==> IsSeparator(r.seps[k]))
    && (forall k :: 0 <= k < |r.pieces| ==> SeparatorFree(r.pieces[k]))
  }

  /** No separator, of any length, starts at a position of `s[lo..hi]`. */
  ghost predicate NoSeparatorIn(s: string, lo: nat, hi: nat)
  {
    forall p, m :: lo <= p < hi && 0 < m ==> !SeparatorAt(s, p, m)
  }

  /** A separator of length `m` starts at `p`, and no longer one does. */
  ghost predicate LongestAt(s: string, p: nat, m: nat)
  {
    && 0 < m
    && SeparatorAt(s, p, m)
    && forall m' :: m < m' ==> !SeparatorAt(s, p, m')
  }

  /** The split a regular-expression engine makes of `s[start..]`: each
      piece runs up to the leftmost position where a separator starts, and
      the separator after it is the longest one starting there. The last
      piece runs to the end of the text, no separator starting inside it. */
  ghost predicate LeftmostLongest(s: string, start: nat, r: Split)
    decreases |r.seps|
  {
    && |r.pieces| == |r.seps| + 1
    && var end := start + |r.pieces[0]|;
       && end <= |s|
       && s[start..end] == r.pieces[0]
       && NoSeparatorIn(s, start, end)
       && if |r.seps| == 0 then end == |s|
          else
            && LongestAt(s, end, |r.seps[0]|)
            && s[end..end + |r.seps[0]|] == r.seps[0]
            && LeftmostLongest(s, end + |r.seps[0]|, Tail(r))
  }

  /** The split without its first piece and separator. */
  function Tail(r: Split): Split
    requires |r.seps| > 0 && |r.pieces| == |r.seps| + 1
  {
    Split(r.pieces[1..], r.seps[1..])
  }

  /** Both splits end their first piece at the leftmost separator, and
      both take the longest separator there. */
  lemma FirstPieceForced(s: string, start: nat, a: Split, b: Split)
    requires LeftmostLongest(s, start, a) && LeftmostLongest(s, start, b)
    ensures a.pieces[0] == b.pieces[0]
    ensures |a.seps| == 0 <==> |b.seps| == 0
    ensures |a.seps| > 0 ==> a.seps[0] == b.seps[0]
  {
    EndNotBefore(s, start, a, b);
    EndNotBefore(s, start, b, a);
    var end := start + |a.pieces[0]|;
    assert a.pieces[0] == s[start..end] == b.pieces[0];
    if |a.seps| > 0 {
      LongestUnique(s, end, |a.seps[0]|, |b.seps[0]|);
    }
  }

  /** At most one length is the longest separator at a position. */
  lemma LongestUnique(s: string, p: nat, m1: nat, m2: nat)
    requires LongestAt(s, p, m1) && LongestAt(s, p, m2)
    ensures m1 == m2
  {
  }

  /** The first piece of a leftmost-longest split ends at a separator or at
      the end of the text, so no other such split can end its first piece
      later. */
  lemma EndNotBefore(s: string, start: nat, a: Split, b: Split)
    requires LeftmostLongest(s, start, a) && LeftmostLongest(s, start, b)
    ensures |b.pieces[0]| <= |a.pieces[0]|
    ensures |a.seps| > 0 ==> start + |a.pieces[0]| < |s|
  {
    if |a.seps| > 0 {
      assert SeparatorAt(s, start + |a.pieces[0]|, |a.seps[0]|);
    }
  }

  /** A split with a separator is its first piece and separator in front of
      its tail. */
  lemma ConsTail(r: Split)
    requires |r.seps| > 0 && |r.pieces| == |r.seps| + 1
    ensures r == Split([r.pieces[0]] + Tail(r).pieces, [r.seps[0]] + Tail(r).seps)
  {
  }

  /** There is only one leftmost-longest split: where the first piece ends
      is forced (the first position where a separator matches), and so is
      the separator (the longest match there). */
  lemma {:induction false} LeftmostLongestUnique(s: string, start: nat, a: Split, b: Split)
    requires LeftmostLongest(s, start, a) && LeftmostLongest(s, start, b)
    ensures a == b
    decreases |a.seps|
  {
    FirstPieceForced(s, start, a, b);
    if |a.seps| > 0 {
      var next := start + |a.pieces[0]| + |a.seps[0]|;
      LeftmostLongestUnique(s, next, Tail(a), Tail(b));
      ConsTail(a);
      ConsTail(b);
    } else {
      assert a.pieces == [a.pieces[0]] && b.pieces == [b.pieces[0]];
    }
  }

  /** Where no separator matched, none of any length starts. */
  lemma NoSeparatorWhereNoMatch(s: string, lo: nat, hi: nat)
    requires hi <= |s|
    requires forall p :: lo <= p < hi ==> MatchLength(s, p) == 0
    ensures NoSeparatorIn(s, lo, hi)
  {
    forall p, m | lo <= p < hi && 0 < m
      ensures !SeparatorAt(s, p, m)
    {
      assert MatchLength(s, p) == 0;
    }
  }

  /** The piece up to the separator at `pos`, that separator, and the
      leftmost-longest split after it. */
  lemma LeftmostLongestCons(s: string, start: nat, pos: nat, n: nat, rest: Split)
    requires start <= pos < |s| && NoSeparatorIn(s, start, pos)
    requires LongestAt(s, pos, n)
    requires LeftmostLongest(s, pos + n, rest)
    ensures LeftmostLongest(s, start, Split([s[start..pos]] + rest.pieces, [s[pos..pos + n]] + rest.seps))
  {
    var r := Split([s[start..pos]] + rest.pieces, [s[pos..pos + n]] + rest.seps);
    assert Tail(r) == rest;
  }

  /** Putting one more piece and separator in front of a well-formed split. */
  lemma ConsSplit(text: string, piece: string, sep: string, rest: string, sp: Split)
    requires WellFormedSplit(rest, sp)
    requires SeparatorFree(piece) && IsSeparator(sep)
    requires text == piece + sep + rest
    ensures WellFormedSplit(text, Split([piece] + sp.pieces, [sep] + sp.seps))
  {
    var r := Split([piece] + sp.pieces, [sep] + sp.seps);
    assert r.pieces[1..] == sp.pieces && r.seps[1..] == sp.seps;
  }

  /** The piece before the separator found at `pos`, the separator, and the
      split of the rest make a split of `s[start..]`. */
  lemma ScanStep(s: string, start: nat, pos: nat, n: nat, rest: Split)
    requires start <= pos < |s| && 0 < n && pos + n <= |s|
    requires forall p :: start <= p < pos ==> MatchLength(s, p) == 0
    requires IsSeparator(s[pos..pos + n])
    requires WellFormedSplit(s[pos + n..], rest)
    ensures WellFormedSplit(s[start..], Split([s[start..pos]] + rest.pieces, [s[pos..pos + n]] + rest.seps))
  {
    SeparatorFreeStretch(s, start, pos);
    assert s[start..] == s[start..pos] + s[pos..pos + n] + s[pos + n..];
    ConsSplit(s[start..], s[start..pos], s[pos..pos + n], s[pos + n..], rest);
  }

  /** With no separator left, the rest of the text is the last piece. */
  lemma ScanEnd(s: string, start: nat)
    requires start <= |s|
    requires forall p :: start <= p < |s| ==> MatchLength(s, p) == 0
    ensures WellFormedSplit(s[start..], Split([s[start..]], []))
  {
    SeparatorFreeStretch(s, start, |s|);
    assert s[start..|s|] == s[start..];
  }

  /** The regular-expression scan from `pos`, the current piece having started
      at `start`. */
  function Scan(s: string, start: nat, pos: nat): (r: Split)
    requires start <= pos <= |s|
    requires forall p :: start <= p < pos ==> MatchLength(s, p) == 0
    ensures WellFormedSplit(s[start..], r)
    decreases |s| - pos
  {
    if pos == |s| then
      ScanEnd(s, start);
      Split([s[start..]], [])
    else
      var n := MatchLength(s, pos);
      if n == 0 then
        Scan(s, start, pos + 1)
      else
        var rest := Scan(s, pos + n, pos + n);
        ScanStep(s, start, pos, n, rest);
        Split([s[start..pos]] + rest.pieces, [s[pos..pos + n]] + rest.seps)
  }

  /** The scan makes the leftmost-longest split: it cuts at the first
      position where a separator matches and takes the longest match. */
  lemma {:induction false} ScanLeftmostLongest(s: string, start: nat, pos: nat)
    requires start <= pos <= |s|
    requires forall p :: start <= p < pos ==> MatchLength(s, p) == 0
    ensures LeftmostLongest(s, start, Scan(s, start, pos))
    decreases |s| - pos
  {
    if pos == |s| {
      NoSeparatorWhereNoMatch(s, start, pos);
      assert s[start..pos] == s[start..];
    } else {
      var n := MatchLength(s, pos);
      if n == 0 {
        ScanLeftmostLongest(s, start, pos + 1);
      } else {
        ScanLeftmostLongest(s, pos + n, pos + n);
        NoSeparatorWhereNoMatch(s, start, pos);
        LeftmostLongestCons(s, start, pos, n, Scan(s, pos + n, pos + n));
      }
    }
  }

  /** `re.split(r'\n\s*\n|#+ ', text)`: at least one piece; the pieces, with
      the matched separators put back, rebuild the text; no piece contains
      a separator; and the pieces are those of the leftmost-longest scan,
      which determines them (`SplitTextUnique`). */
  function SplitText(text: string): (r: seq<string>)
    ensures |r| >= 1
    ensures exists seps :: WellFormedSplit(text, Split(r, seps)) && LeftmostLongest(text, 0, Split(r, seps))
  {
    var sp := Scan(text, 0, 0);
    ScanLeftmostLongest(text, 0, 0);
    assert text[0..] == text;
    sp.pieces
  }

  /** Any leftmost-longest split of the text has exactly the pieces
      `SplitText` returns. */
  lemma SplitTextUnique(text: string, sp: Split)
    requires LeftmostLongest(text, 0, sp)
    ensures SplitText(text) == sp.pieces
  {
    var seps :| WellFormedSplit(text, Split(SplitText(text), seps)) && LeftmostLongest(text, 0, Split(SplitText(text), seps));
    LeftmostLongestUnique(text, 0, sp, Split(SplitText(text), seps));
  }

  /** A run of three newlines is one separator: `a\n\n\nb` splits into `a`
      and `b`, not into `a\n` and `b` or `a` and `\nb`. */
  lemma BlankRunIsOneSeparator()
    ensures SplitText("a\n\n\nb") == ["a", "b"]
  {
    var s := "a\n\n\nb";
    assert SkipSpaces(s, 2) == 4;
    assert LastNewline(s, 2, 4) == Some(3);
    assert MatchLength(s, 0) == 0;
    assert MatchLength(s, 1) == 3;
    assert MatchLength(s, 4) == 0;
    var sp := Split(["a", "b"], ["\n\n\n"]);
    assert LeftmostLongest(s, 4, Split(["b"], []));
    assert Tail(sp) == Split(["b"], []);
    assert LeftmostLongest(s, 0, sp);
    SplitTextUnique(s, sp);
  }
}
